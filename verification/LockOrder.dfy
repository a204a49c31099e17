/**
 * The deadlock profiler of ServerCore/DeadLockProfiler.cpp: a growing graph of "lock b was taken
 * while lock a was on top of the stack", searched depth first for a cycle whenever an edge is new.
 */
module LockOrder {
  import opened Options

  type Graph = map<int, set<int>>
  type Thread = int
  /** A `const char*`: names are compared by address. */
  type Name = int

  predicate Edge(g: Graph, a: int, b: int) { a in g && b in g[a] }

  predicate IsWalk(g: Graph, walk: seq<int>) {
    forall k :: 0 <= k < |walk| - 1 ==> Edge(g, walk[k], walk[k + 1])
  }

  predicate WalkFromTo(g: Graph, walk: seq<int>, a: int, b: int) {
    |walk| >= 2 && walk[0] == a && walk[|walk| - 1] == b && IsWalk(g, walk)
  }

  /** There is a walk of at least one edge. */
  ghost predicate Reaches(g: Graph, a: int, b: int) {
    exists walk :: WalkFromTo(g, walk, a, b)
  }

  ghost predicate HasCycle(g: Graph) {
    exists a :: Reaches(g, a, a)
  }

  /** Every edge joins two different ids below `n`. */
  ghost predicate Simple(g: Graph, n: int) {
    forall a, b {:trigger Edge(g, a, b)} :: Edge(g, a, b) ==> 0 <= a < n && 0 <= b < n && a != b
  }

  // ---------------------------------------------------------------- what a report must be

  /** The printed lines, in order: `here -> there`, then each vertex below its parent, back to `there`. */
  predicate IsReportedCycle(g: Graph, lines: seq<(int, int)>) {
    && |lines| >= 2
    && (forall k :: 0 <= k < |lines| ==> Edge(g, lines[k].0, lines[k].1))
    && (forall k :: 1 <= k < |lines| ==> lines[k].1 == lines[k - 1].0)
    && lines[|lines| - 1].0 == lines[0].1
  }

  lemma ReportedCycleIsCycle(g: Graph, lines: seq<(int, int)>)
    requires IsReportedCycle(g, lines)
    ensures HasCycle(g)
  {
    var n := |lines|;
    var walk := seq(n, k requires 0 <= k < n => lines[n - 1 - k].0) + [lines[0].1];
    forall k | 0 <= k < |walk| - 1 ensures Edge(g, walk[k], walk[k + 1]) {
      assert Edge(g, lines[n - 1 - k].0, lines[n - 1 - k].1);
    }
    assert WalkFromTo(g, walk, walk[0], walk[0]);
    assert Reaches(g, walk[0], walk[0]);
  }

  /** `order` lists vertices so that every edge leads strictly to the left. */
  ghost predicate LeadsLeft(g: Graph, order: seq<int>) {
    forall i, b {:trigger Edge(g, order[i], b)} :: 0 <= i < |order| && Edge(g, order[i], b) ==> b in order[..i]
  }

  lemma {:induction false} WalkStaysLeft(g: Graph, order: seq<int>, walk: seq<int>, i: nat)
    requires LeadsLeft(g, order) && IsWalk(g, walk) && |walk| >= 2
    requires i < |order| && walk[0] == order[i]
    ensures walk[|walk| - 1] in order[..i]
    decreases |walk|
  {
    assert Edge(g, order[i], walk[1]);
    if |walk| > 2 {
      var j :| 0 <= j < i && order[j] == walk[1];
      assert IsWalk(g, walk[1..]) by {
        forall k | 0 <= k < |walk[1..]| - 1 ensures Edge(g, walk[1..][k], walk[1..][k + 1]) {
          assert Edge(g, walk[k + 1], walk[k + 1 + 1]);
        }
      }
      WalkStaysLeft(g, order, walk[1..], j);
      assert order[..j] <= order[..i];
    }
  }

  lemma {:induction false} NoLoopInOrder(g: Graph, order: seq<int>, walk: seq<int>, i: nat)
    requires LeadsLeft(g, order) && |walk| >= 2 && WalkFromTo(g, walk, walk[0], walk[0])
    requires i < |order| && walk[0] == order[i]
    ensures false
  {
    WalkStaysLeft(g, order, walk, i);
    var j :| 0 <= j < i && order[j] == walk[0];
    NoLoopInOrder(g, order, walk, j);
  }

  lemma LeadsLeftAppend(g: Graph, order: seq<int>, v: int)
    requires LeadsLeft(g, order)
    requires forall b :: Edge(g, v, b) ==> b in order
    ensures LeadsLeft(g, order + [v])
  {
    forall i, b {:trigger Edge(g, (order + [v])[i], b)} | 0 <= i < |order + [v]| && Edge(g, (order + [v])[i], b)
      ensures b in (order + [v])[..i]
    {
      if i < |order| {
        assert Edge(g, order[i], b);
        assert (order + [v])[..i] == order[..i];
      } else {
        assert (order + [v])[..i] == order;
      }
    }
  }

  lemma OrderedIsAcyclic(g: Graph, order: seq<int>, n: int)
    requires Simple(g, n) && LeadsLeft(g, order)
    requires forall v :: 0 <= v < n ==> v in order
    ensures !HasCycle(g)
  {
    if HasCycle(g) {
      var a :| Reaches(g, a, a);
      var walk :| WalkFromTo(g, walk, a, a);
      assert Edge(g, walk[0], walk[1]);
      assert a in order;
      var i :| 0 <= i < |order| && order[i] == a;
      NoLoopInOrder(g, order, walk, i);
    }
  }

  // ---------------------------------------------------------------- the profiler's state as a value

  datatype State = State(nameToId: map<Name, int>, idToName: map<int, Name>, history: Graph, stacks: map<Thread, seq<int>>)

  const EMPTY := State(map[], map[], map[], map[])

  function StackOf(st: State, t: Thread): seq<int> {
    if t in st.stacks then st.stacks[t] else []
  }

  function WithEdge(g: Graph, a: int, b: int): Graph {
    g[a := (if a in g then g[a] else {}) + {b}]
  }

  /** Ids are handed out from 0. */
  function Register(st: State, name: Name): State {
    if name in st.nameToId then st
    else st.(nameToId := st.nameToId[name := |st.nameToId|], idToName := st.idToName[|st.nameToId| := name])
  }

  predicate IsNewEdge(st: State, t: Thread, id: int) {
    StackOf(st, t) != [] && Last(StackOf(st, t)) != id && !Edge(st.history, Last(StackOf(st, t)), id)
  }

  function Last(s: seq<int>): int
    requires s != []
  {
    s[|s| - 1]
  }

  function PushNext(st: State, t: Thread, name: Name): State {
    var st1 := Register(st, name);
    var id := st1.nameToId[name];
    var stack := StackOf(st, t);
    st1.(history := if IsNewEdge(st, t, id) then WithEdge(st.history, Last(stack), id) else st.history,
         stacks := st.stacks[t := stack + [id]])
  }

  /** `_nameToId[name]` gives an unknown name the id 0. */
  function PopNames(st: State, name: Name): map<Name, int> {
    if name in st.nameToId then st.nameToId else st.nameToId[name := 0]
  }

  datatype PopCrash = MultipleUnlock | InvalidUnlock

  function PopCrashes(st: State, t: Thread, name: Name): Option<PopCrash> {
    if StackOf(st, t) == [] then Some(MultipleUnlock)
    else if Last(StackOf(st, t)) != PopNames(st, name)[name] then Some(InvalidUnlock)
    else None
  }

  function PopNext(st: State, t: Thread, name: Name): State
    requires PopCrashes(st, t, name).None?
  {
    var stack := StackOf(st, t);
    st.(nameToId := PopNames(st, name), stacks := st.stacks[t := stack[..|stack| - 1]])
  }

  ghost predicate IdsInRange(st: State) {
    && (forall name :: name in st.nameToId ==> 0 <= st.nameToId[name] < |st.nameToId|)
    && (forall t :: t in st.stacks ==> forall k :: 0 <= k < |st.stacks[t]| ==> 0 <= st.stacks[t][k] < |st.nameToId|)
    && Simple(st.history, |st.nameToId|)
  }

  lemma IdsStayInRange(st: State, t: Thread, name: Name)
    requires IdsInRange(st)
    ensures IdsInRange(PushNext(st, t, name))
    ensures PopCrashes(st, t, name).None? ==> IdsInRange(PopNext(st, t, name))
  {
    hide Simple;
    NewEdgeIsSimple(st, t, name);
    SimpleGrows(st.history, |st.nameToId|, |PopNames(st, name)|);
  }

  lemma SimpleGrows(g: Graph, n: int, m: int)
    requires Simple(g, n) && n <= m
    ensures Simple(g, m)
  {
  }

  lemma NewEdgeIsSimple(st: State, t: Thread, name: Name)
    requires IdsInRange(st)
    ensures Simple(PushNext(st, t, name).history, |Register(st, name).nameToId|)
  {
    var st' := PushNext(st, t, name);
    forall a, b | Edge(st'.history, a, b)
      ensures 0 <= a < |st'.nameToId| && 0 <= b < |st'.nameToId| && a != b
    {
      if !Edge(st.history, a, b) {
        assert st'.history != st.history;
      }
    }
  }

  lemma SomeMember(s: set<int>)
    requires s != {}
    ensures exists v :: v in s
  {
    assert (forall v :: v !in s) ==> s == {};
  }

  // ---------------------------------------------------------------- the profiler

  class DeadLockProfiler {
    var nameToId: map<Name, int>
    var idToName: map<int, Name>
    var lockHistory: Graph
    /** The thread-local `LLockStack` of every thread. */
    var lockStacks: map<Thread, seq<int>>

    var discoveredOrder: seq<int>
    var discoveredCount: int
    var finished: seq<bool>
    var parent: seq<int>
    /** The vertices in the order in which their Dfs ended. */
    ghost var order: seq<int>

    function Value(): State
      reads this
    {
      State(nameToId, idToName, lockHistory, lockStacks)
    }

    constructor ()
      ensures Value() == EMPTY
    {
      nameToId, idToName, lockHistory, lockStacks := map[], map[], map[], map[];
      discoveredOrder, discoveredCount, finished, parent := [], 0, [], [];
      order := [];
    }

    ghost predicate Sized()
      reads this
    {
      |discoveredOrder| == |finished| == |parent| && Simple(lockHistory, |finished|)
    }

    /** Discovered but unfinished vertices are exactly the chain of calls under way. */
    ghost predicate OnPath(path: seq<int>, done: seq<bool>)
      reads this
      requires |discoveredOrder| == |done| == |parent|
    {
      && (forall v :: v in path <==> 0 <= v < |done| && discoveredOrder[v] != -1 && !done[v])
      && (forall k :: 0 <= k < |path| ==> 0 <= path[k] < |done|)
      && (forall k :: 1 <= k < |path| ==> parent[path[k]] == path[k - 1] && Edge(lockHistory, path[k - 1], path[k]))
      && (forall j, k :: 0 <= j < k < |path| ==> discoveredOrder[path[j]] < discoveredOrder[path[k]])
    }

    ghost predicate Searching(path: seq<int>)
      reads this
    {
      && Sized()
      && (forall v :: 0 <= v < |finished| ==> -1 <= discoveredOrder[v] < discoveredCount)
      && (forall v :: 0 <= v < |finished| && finished[v] ==> discoveredOrder[v] != -1)
      && OnPath(path, finished)
      && (forall v :: v in order <==> 0 <= v < |finished| && finished[v])
      && LeadsLeft(lockHistory, order)
    }

    ghost function Undiscovered(): set<int>
      reads this
    {
      set v | 0 <= v < |discoveredOrder| && discoveredOrder[v] == -1
    }

    twostate predicate Advanced()
      reads this
    {
      && Value() == old(Value())
      && |finished| == old(|finished|)
      && Undiscovered() <= old(Undiscovered())
      && (forall v :: 0 <= v < |finished| && old(finished[v]) ==> finished[v])
    }

    /** Dfs.  The printed lines stand for the crash that follows them. */
    method Dfs(here: int, ghost path: seq<int>) returns (report: Option<seq<(int, int)>>)
      requires Searching(path) && 0 <= here < |finished| == |discoveredOrder|
      requires discoveredOrder[here] == -1 && path != [] ==>
                 parent[here] == Last(path) && Edge(lockHistory, Last(path), here)
      requires discoveredOrder[here] != -1 ==> finished[here]
      modifies this`discoveredOrder, this`discoveredCount, this`finished, this`parent, this`order
      ensures Value() == old(Value())
      ensures report.Some? ==> IsReportedCycle(lockHistory, report.value)
      ensures report.None? ==> Searching(path) && Advanced() && finished[here]
      decreases Undiscovered()
    {
      hide Searching, Simple, IsReportedCycle;
      if discoveredOrder[here] != -1 {
        return None;
      }
      Discover(here, path);
      ghost var path' := path + [here];

      if here !in lockHistory {
        Finish(here, path);
        return None;
      }

      var rest := lockHistory[here];
      while rest != {}
        invariant Searching(path') && Value() == old(Value()) && |finished| == old(|finished|)
        invariant Undiscovered() < old(Undiscovered())
        invariant forall v :: 0 <= v < |finished| && old(finished[v]) ==> finished[v]
        invariant forall v :: Edge(lockHistory, here, v) && v !in rest ==> 0 <= v < |finished| && finished[v]
      {
        SomeMember(rest);
        var there :| there in rest;
        rest := rest - {there};
        if Edge(lockHistory, here, there) {
          Classify(here, there, path');
        }
        if discoveredOrder[there] == -1 {
          SetParent(here, there, path');
          report := Dfs(there, path');
          if report.Some? {
            return;
          }
        } else if discoveredOrder[here] < discoveredOrder[there] {
        } else if !finished[there] {
          report := Report(here, there, path');
          return;
        }
      }
      Finish(here, path);
      return None;
    }

    /** What Dfs(here) can meet at the other end of an edge. */
    lemma Classify(here: int, there: int, path: seq<int>)
      requires Searching(path) && path != [] && Last(path) == here && Edge(lockHistory, here, there)
      ensures 0 <= there < |finished| == |discoveredOrder| == |parent| && 0 <= here < |finished|
      ensures discoveredOrder[there] == -1 || finished[there] || there in path
      ensures there in path ==> discoveredOrder[there] < discoveredOrder[here]
      ensures discoveredOrder[there] == -1 ==> !finished[there]
    {
      if there in path {
        var k :| 0 <= k < |path| && path[k] == there;
        assert k < |path| - 1;
      }
    }

    method SetParent(here: int, there: int, ghost path: seq<int>)
      requires Searching(path) && 0 <= there < |finished| == |discoveredOrder| == |parent| && discoveredOrder[there] == -1
      modifies this`parent
      ensures Searching(path) && |parent| == |finished| && parent[there] == here
    {
      parent := parent[there := here];
    }

    /** The start of Dfs(here). */
    method Discover(here: int, ghost path: seq<int>)
      requires Searching(path) && 0 <= here < |finished| == |discoveredOrder| && discoveredOrder[here] == -1
      requires path != [] ==> parent[here] == Last(path) && Edge(lockHistory, Last(path), here)
      modifies this`discoveredOrder, this`discoveredCount
      ensures Searching(path + [here])
      ensures Undiscovered() == old(Undiscovered()) - {here} && here in old(Undiscovered())
    {
      hide Simple, LeadsLeft;
      discoveredOrder := discoveredOrder[here := discoveredCount];
      discoveredCount := discoveredCount + 1;
    }

    /** The end of Dfs(here): every vertex it leads to is finished. */
    method Finish(here: int, ghost path: seq<int>)
      requires Searching(path + [here]) && 0 <= here < |finished|
      requires forall v :: Edge(lockHistory, here, v) ==> 0 <= v < |finished| && finished[v]
      modifies this`finished, this`order
      ensures Searching(path) && finished == old(finished)[here := true]
    {
      LeadsLeftAppend(lockHistory, order, here);
      PathPop(path, here);
      finished := finished[here := true];
      order := order + [here];
    }

    lemma PathPop(path: seq<int>, here: int)
      requires Searching(path + [here]) && 0 <= here < |finished|
      ensures OnPath(path, finished[here := true])
    {
      var path' := path + [here];
      assert path'[|path|] == here;
      assert forall k :: 0 <= k < |path| ==> path[k] == path'[k];
      assert forall k :: 0 <= k < |path| ==> discoveredOrder[path'[k]] < discoveredOrder[path'[|path|]];
      assert forall v :: v in path' <==> v in path || v == here;
    }

    /** The lines printed for a back edge: it, then the parents from `here` up to `there`. */
    method Report(here: int, there: int, ghost path: seq<int>) returns (report: Option<seq<(int, int)>>)
      requires Searching(path) && path != [] && Last(path) == here
      requires Edge(lockHistory, here, there) && there in path
      ensures report.Some? && IsReportedCycle(lockHistory, report.value)
    {
      var lines := [(here, there)];
      var now := here;
      ghost var k := |path| - 1;
      ghost var m :| 0 <= m < |path| && path[m] == there;
      while true
        invariant m < k < |path| && now == path[k]
        invariant |lines| == |path| - k
        invariant lines[0] == (here, there) && lines[|lines| - 1].0 == now
        invariant forall i :: 0 <= i < |lines| ==> Edge(lockHistory, lines[i].0, lines[i].1)
        invariant forall i :: 1 <= i < |lines| ==> lines[i].1 == lines[i - 1].0
        decreases k
      {
        assert parent[path[k]] == path[k - 1] && Edge(lockHistory, path[k - 1], path[k]);
        lines := lines + [(parent[now], now)];
        now := parent[now];
        k := k - 1;
        if now == there {
          break;
        }
      }
      return Some(lines);
    }

    method StartSearch(lockCount: nat)
      requires Simple(lockHistory, lockCount)
      modifies this`discoveredOrder, this`discoveredCount, this`finished, this`parent, this`order
      ensures Searching([]) && |finished| == lockCount
    {
      discoveredOrder := seq(lockCount, _ => -1);
      discoveredCount := 0;
      finished := seq(lockCount, _ => false);
      parent := seq(lockCount, _ => -1);
      order := [];
    }

    /** CheckCycle: a deadlock is reported exactly when the recorded graph has a directed cycle. */
    method CheckCycle() returns (report: Option<seq<(int, int)>>)
      requires Simple(lockHistory, |nameToId|)
      modifies this`discoveredOrder, this`discoveredCount, this`finished, this`parent, this`order
      ensures Value() == old(Value())
      ensures report.Some? <==> HasCycle(lockHistory)
      ensures report.Some? ==> IsReportedCycle(lockHistory, report.value)
    {
      var lockCount := |nameToId|;
      StartSearch(lockCount);
      var lockId := 0;
      while lockId < lockCount
        invariant 0 <= lockId <= lockCount == |finished|
        invariant Searching([]) && Value() == old(Value())
        invariant forall v :: 0 <= v < lockId ==> finished[v]
      {
        assert discoveredOrder[lockId] != -1 && !finished[lockId] ==> lockId in [];
        report := Dfs(lockId, []);
        if report.Some? {
          ReportedCycleIsCycle(lockHistory, report.value);
          return;
        }
        lockId := lockId + 1;
      }
      OrderedIsAcyclic(lockHistory, order, lockCount);
      discoveredOrder, finished, parent := [], [], [];
      report := None;
    }

    /** PushLock, run under the profiler's own mutex. */
    method PushLock(t: Thread, name: Name) returns (report: Option<seq<(int, int)>>)
      requires IdsInRange(Value())
      modifies this
      ensures report.Some? <==> Value().history != old(Value()).history && HasCycle(Value().history)
      ensures report.Some? ==> IsReportedCycle(lockHistory, report.value)
      ensures Value().history == PushNext(old(Value()), t, name).history
      ensures report.None? ==> Value() == PushNext(old(Value()), t, name)
    {
      IdsStayInRange(Value(), t, name);
      ghost var next := PushNext(Value(), t, name);
      var lockId := 0;
      if name !in nameToId {
        lockId := |nameToId|;
        nameToId := nameToId[name := lockId];
        idToName := idToName[lockId := name];
      } else {
        lockId := nameToId[name];
      }
      var stack := if t in lockStacks then lockStacks[t] else [];
      report := None;
      if stack != [] {
        var prevId := stack[|stack| - 1];
        if lockId != prevId {
          if prevId !in lockHistory || lockId !in lockHistory[prevId] {
            lockHistory := lockHistory[prevId := (if prevId in lockHistory then lockHistory[prevId] else {}) + {lockId}];
            assert lockId in lockHistory[prevId];
            report := CheckCycle();
            if report.Some? {
              return;
            }
          }
        }
      }
      lockStacks := lockStacks[t := stack + [lockId]];
    }

    method PopLock(t: Thread, name: Name) returns (crash: Option<PopCrash>)
      modifies this
      ensures crash == PopCrashes(old(Value()), t, name)
      ensures crash.None? ==> Value() == PopNext(old(Value()), t, name)
    {
      if t !in lockStacks || lockStacks[t] == [] {
        return Some(MultipleUnlock);
      }
      if name !in nameToId {
        nameToId := nameToId[name := 0];
      }
      var stack := lockStacks[t];
      if stack[|stack| - 1] != nameToId[name] {
        return Some(InvalidUnlock);
      }
      lockStacks := lockStacks[t := stack[..|stack| - 1]];
      crash := None;
    }
  }

  // ---------------------------------------------------------------- runs of many threads

  datatype Op = Push(thread: Thread, name: Name) | Pop(thread: Thread, name: Name)

  ghost predicate Crashes(st: State, op: Op) {
    match op
    case Push(t, name) =>
      var next := PushNext(st, t, name);
      next.history != st.history && HasCycle(next.history)
    case Pop(t, name) => PopCrashes(st, t, name).Some?
  }

  ghost function Next(st: State, op: Op): State
    requires !Crashes(st, op)
  {
    match op
    case Push(t, name) => PushNext(st, t, name)
    case Pop(t, name) => PopNext(st, t, name)
  }

  /** The mutex makes each call one step; a run is any interleaving of calls that has not crashed. */
  ghost predicate Run(st: State, ops: seq<Op>, end: State)
    decreases |ops|
  {
    if ops == [] then end == st
    else !Crashes(st, ops[0]) && Run(Next(st, ops[0]), ops[1..], end)
  }

  predicate AdjacentRecorded(g: Graph, stack: seq<int>) {
    forall k :: 0 <= k < |stack| - 1 && stack[k] != stack[k + 1] ==> Edge(g, stack[k], stack[k + 1])
  }

  predicate AllRecorded(st: State) {
    forall t :: t in st.stacks ==> AdjacentRecorded(st.history, st.stacks[t])
  }

  ghost predicate Inv(st: State) {
    IdsInRange(st) && !HasCycle(st.history) && AllRecorded(st)
  }

  lemma PushRecords(st: State, t: Thread, name: Name)
    requires AllRecorded(st)
    ensures AllRecorded(PushNext(st, t, name))
  {
    var st' := PushNext(st, t, name);
    assert forall a, b :: Edge(st.history, a, b) ==> Edge(st'.history, a, b);
    var stack := StackOf(st, t);
    var stack' := StackOf(st', t);
    forall k | 0 <= k < |stack'| - 1 && stack'[k] != stack'[k + 1]
      ensures Edge(st'.history, stack'[k], stack'[k + 1])
    {
      if k < |stack| - 1 {
        assert Edge(st.history, stack[k], stack[k + 1]);
      } else {
        assert stack'[k] == Last(stack);
      }
    }
    forall u | u in st'.stacks && u != t ensures AdjacentRecorded(st'.history, st'.stacks[u]) {
      assert AdjacentRecorded(st.history, st.stacks[u]);
    }
  }

  lemma StepKeepsInv(st: State, op: Op)
    requires Inv(st) && !Crashes(st, op)
    ensures Inv(Next(st, op))
  {
    IdsStayInRange(st, op.thread, op.name);
    match op
    case Push(t, name) => PushRecords(st, t, name);
    case Pop(t, name) =>
      assert AdjacentRecorded(st.history, st.stacks[t]);
  }

  lemma {:induction false} RunKeepsInv(st: State, ops: seq<Op>, end: State)
    requires Inv(st) && Run(st, ops, end)
    ensures Inv(end)
    decreases |ops|
  {
    hide Inv, Next, Crashes;
    if ops != [] {
      StepKeepsInv(st, ops[0]);
      RunKeepsInv(Next(st, ops[0]), ops[1..], end);
    }
  }

  /** Over every run that has not crashed, the lock graph is acyclic and holds every adjacent pair of
      different ids on every thread's stack. */
  lemma RunIsAcyclic(ops: seq<Op>, end: State)
    requires Run(EMPTY, ops, end)
    ensures !HasCycle(end.history) && AllRecorded(end)
  {
    assert forall a, b :: !Edge(EMPTY.history, a, b);
    OrderedIsAcyclic(EMPTY.history, [], 0);
    RunKeepsInv(EMPTY, ops, end);
  }

  lemma ReachTrans(g: Graph, a: int, b: int, c: int)
    requires Reaches(g, a, b) && Reaches(g, b, c)
    ensures Reaches(g, a, c)
  {
    var w1 :| WalkFromTo(g, w1, a, b);
    var w2 :| WalkFromTo(g, w2, b, c);
    var walk := w1 + w2[1..];
    forall k | 0 <= k < |walk| - 1 ensures Edge(g, walk[k], walk[k + 1]) {
      if k < |w1| - 1 {
        assert Edge(g, w1[k], w1[k + 1]);
      } else {
        assert Edge(g, w2[k - |w1| + 1], w2[k - |w1| + 2]);
      }
    }
    assert WalkFromTo(g, walk, a, c);
  }

  lemma {:induction false} HeldReachesTop(g: Graph, stack: seq<int>, k: nat)
    requires k < |stack| && AdjacentRecorded(g, stack)
    ensures stack[k] == Last(stack) || Reaches(g, stack[k], Last(stack))
    decreases |stack| - k
  {
    if k < |stack| - 1 {
      HeldReachesTop(g, stack, k + 1);
      if stack[k] != stack[k + 1] {
        assert WalkFromTo(g, [stack[k], stack[k + 1]], stack[k], stack[k + 1]);
        if stack[k + 1] != Last(stack) {
          ReachTrans(g, stack[k], stack[k + 1], Last(stack));
        }
      }
    }
  }

  /** Lock::WriteLock and Lock::ReadLock push before they try, so a waiting thread has the lock it
      waits for on top of its stack and the locks it holds below. */
  predicate WaitsFor(st: State, waiter: Thread, holder: Thread) {
    var want, stack := StackOf(st, waiter), StackOf(st, holder);
    want != [] && stack != [] && Last(want) in stack[..|stack| - 1]
  }

  /** Threads that each wait for a lock the next one holds, the last for one the first holds. */
  predicate CircularWait(st: State, ring: seq<Thread>) {
    && ring != []
    && (forall i :: 0 <= i < |ring| - 1 ==> WaitsFor(st, ring[i], ring[i + 1]))
    && WaitsFor(st, ring[|ring| - 1], ring[0])
  }

  /** Everyone in the ring waits for one and the same lock, which everyone in it already holds. */
  predicate OneLock(st: State, ring: seq<Thread>, lock: int) {
    forall i :: 0 <= i < |ring| ==>
      var stack := StackOf(st, ring[i]); stack != [] && Last(stack) == lock && lock in stack[..|stack| - 1]
  }

  /** The lock `a` is `b`, or was once taken, through others, before `b`. */
  ghost predicate Leads(g: Graph, a: int, b: int) { a == b || Reaches(g, a, b) }

  lemma LeadsTrans(g: Graph, a: int, b: int, c: int)
    requires Leads(g, a, b) && Leads(g, b, c)
    ensures Leads(g, a, c)
  {
    if a != b && b != c {
      ReachTrans(g, a, b, c);
    }
  }

  lemma WaiterLeadsToHolder(st: State, waiter: Thread, holder: Thread)
    requires AllRecorded(st) && WaitsFor(st, waiter, holder)
    ensures Leads(st.history, Last(StackOf(st, waiter)), Last(StackOf(st, holder)))
  {
    var stack := StackOf(st, holder);
    var k :| 0 <= k < |stack| - 1 && stack[k] == Last(StackOf(st, waiter));
    HeldReachesTop(st.history, stack, k);
  }

  lemma {:induction false} RingLeads(st: State, ring: seq<Thread>, i: nat, j: nat)
    requires AllRecorded(st) && CircularWait(st, ring) && i <= j < |ring|
    ensures StackOf(st, ring[i]) != [] && StackOf(st, ring[j]) != []
    ensures Leads(st.history, Last(StackOf(st, ring[i])), Last(StackOf(st, ring[j])))
    decreases j - i
  {
    hide Leads;
    if i == j {
      assert i < |ring| - 1 ==> WaitsFor(st, ring[i], ring[i + 1]);
      LeadsItself(st.history, Last(StackOf(st, ring[i])));
    } else {
      assert WaitsFor(st, ring[i], ring[i + 1]);
      WaiterLeadsToHolder(st, ring[i], ring[i + 1]);
      RingLeads(st, ring, i + 1, j);
      LeadsTrans(st.history, Last(StackOf(st, ring[i])), Last(StackOf(st, ring[i + 1])), Last(StackOf(st, ring[j])));
    }
  }

  lemma LeadsItself(g: Graph, a: int)
    ensures Leads(g, a, a)
  {
  }

  /** With one lock per name, the only circular wait reachable without a report is among threads that all
      wait for one lock that all of them hold. */
  lemma NoCircularWait(ops: seq<Op>, end: State, ring: seq<Thread>)
    requires Run(EMPTY, ops, end) && CircularWait(end, ring)
    ensures exists lock :: OneLock(end, ring, lock)
  {
    RunIsAcyclic(ops, end);
    var n := |ring| - 1;
    WaiterLeadsToHolder(end, ring[n], ring[0]);
    var lock := Last(StackOf(end, ring[0]));
    forall i | 0 <= i < |ring|
      ensures StackOf(end, ring[i]) != [] && Last(StackOf(end, ring[i])) == lock
    {
      RingLeads(end, ring, 0, i);
      RingLeads(end, ring, i, n);
      var here := Last(StackOf(end, ring[i]));
      LeadsTrans(end.history, here, Last(StackOf(end, ring[n])), lock);
      if here != lock {
        ReachTrans(end.history, here, lock, here);
      }
    }
    forall i | 0 <= i < |ring|
      ensures var stack := StackOf(end, ring[i]); lock in stack[..|stack| - 1]
    {
      assert i > 0 ==> WaitsFor(end, ring[i - 1], ring[i - 1 + 1]);
    }
    assert OneLock(end, ring, lock);
  }

  /** Pushing the lock on top again, or a first lock, records nothing and so reports nothing. */
  lemma QuietPush(st: State, t: Thread, name: Name)
    requires name in st.nameToId && (StackOf(st, t) != [] ==> Last(StackOf(st, t)) == st.nameToId[name])
    ensures !Crashes(st, Push(t, name))
    ensures PushNext(st, t, name) == st.(stacks := st.stacks[t := StackOf(st, t) + [st.nameToId[name]]])
  {
    hide HasCycle;
  }

  lemma QuietRun(st: State, t: Thread, ops: seq<Op>, name: Name, end: State)
    requires name in st.nameToId && (StackOf(st, t) != [] ==> Last(StackOf(st, t)) == st.nameToId[name])
    requires Run(st.(stacks := st.stacks[t := StackOf(st, t) + [st.nameToId[name]]]), ops, end)
    ensures Run(st, [Push(t, name)] + ops, end)
  {
    hide HasCycle, PushNext;
    QuietPush(st, t, name);
    assert ([Push(t, name)] + ops)[1..] == ops;
  }

  /** And that one is reachable: two threads that each take a lock and then ask for it again, as two
      readers do that both want to write, are never reported. */
  lemma SameLockWaitIsUnseen(t: Thread, u: Thread, name: Name)
    requires t != u
    ensures exists ops, end :: Run(EMPTY, ops, end) && CircularWait(end, [t, u])
  {
    var s1 := PushNext(EMPTY, t, name);
    assert name in s1.nameToId && s1.nameToId[name] == 0 && StackOf(s1, t) == [0] && StackOf(s1, u) == [];
    hide Leads, WaitsFor, CircularWait;
    var s2 := s1.(stacks := s1.stacks[u := StackOf(s1, u) + [0]]);
    var s3 := s2.(stacks := s2.stacks[t := StackOf(s2, t) + [0]]);
    var s4 := s3.(stacks := s3.stacks[u := StackOf(s3, u) + [0]]);
    hide HasCycle, PushNext, Run;
    assert Run(s4, [], s4) by { EmptyRun(s4); }
    QuietRun(s3, u, [], name, s4);
    QuietRun(s2, t, [Push(u, name)] + [], name, s4);
    var three := [Push(u, name)] + ([Push(t, name)] + ([Push(u, name)] + []));
    QuietRun(s1, u, [Push(t, name)] + ([Push(u, name)] + []), name, s4);
    FirstPush(t, name, three, s4);
    BothWait(s4, t, u);
  }

  lemma BothWait(st: State, t: Thread, u: Thread)
    requires StackOf(st, t) == [0, 0] && StackOf(st, u) == [0, 0]
    ensures CircularWait(st, [t, u])
  {
    assert [0, 0][..1] == [0];
    assert WaitsFor(st, t, u) && WaitsFor(st, u, t);
  }

  lemma EmptyRun(st: State)
    ensures Run(st, [], st)
  {
  }

  lemma FirstPush(t: Thread, name: Name, ops: seq<Op>, end: State)
    requires Run(PushNext(EMPTY, t, name), ops, end)
    ensures Run(EMPTY, [Push(t, name)] + ops, end)
  {
    assert ([Push(t, name)] + ops)[1..] == ops;
    assert PushNext(EMPTY, t, name).history == EMPTY.history;
    hide HasCycle, PushNext;
  }
}
