/**
 * The deadlock profiler seen by the names of locks: what its numbering of names amounts to, and which calls
 * it reports, without ids.
 */
module LockNames {
  import opened Options
  import opened LockOrder

  /** The names pushed so far, the pairs of names one of which was pushed while the other was on top, and
      every thread's stack of names. */
  datatype Names = Names(known: set<Name>, order: Graph, stacks: map<Thread, seq<Name>>)

  const NOTHING := Names({}, map[], map[])

  function NamesOf(nm: Names, t: Thread): seq<Name> {
    if t in nm.stacks then nm.stacks[t] else []
  }

  /** The name was not on top, nor ever pushed on what is on top now. */
  predicate IsNewPair(nm: Names, t: Thread, name: Name) {
    var stack := NamesOf(nm, t);
    stack != [] && Last(stack) != name && !Edge(nm.order, Last(stack), name)
  }

  function OrderAfter(nm: Names, t: Thread, name: Name): Graph {
    if IsNewPair(nm, t, name) then WithEdge(nm.order, Last(NamesOf(nm, t)), name) else nm.order
  }

  function NamePush(nm: Names, t: Thread, name: Name): Names {
    Names(nm.known + {name}, OrderAfter(nm, t, name), nm.stacks[t := NamesOf(nm, t) + [name]])
  }

  function NamePop(nm: Names, t: Thread): Names
    requires NamesOf(nm, t) != []
  {
    nm.(stacks := nm.stacks[t := NamesOf(nm, t)[..|NamesOf(nm, t)| - 1]])
  }

  /** A push is reported when it closes a circle of pairs, a pop when its name is not on top. */
  ghost predicate NameCrash(nm: Names, op: Op) {
    match op
    case Push(t, name) => IsNewPair(nm, t, name) && HasCycle(OrderAfter(nm, t, name))
    case Pop(t, name) => NamesOf(nm, t) == [] || Last(NamesOf(nm, t)) != name
  }

  ghost function NameNext(nm: Names, op: Op): Names
    requires !NameCrash(nm, op)
  {
    match op
    case Push(t, name) => NamePush(nm, t, name)
    case Pop(t, _) => NamePop(nm, t)
  }

  ghost predicate NameRun(nm: Names, ops: seq<Op>, end: Names)
    decreases |ops|
  {
    if ops == [] then end == nm
    else !NameCrash(nm, ops[0]) && NameRun(NameNext(nm, ops[0]), ops[1..], end)
  }

  /** Whoever pops a lock names one that has been pushed. */
  predicate PopsKnown(known: set<Name>, ops: seq<Op>)
    decreases |ops|
  {
    ops == [] ||
    ((ops[0].Pop? ==> ops[0].name in known)
     && PopsKnown(if ops[0].Push? then known + {ops[0].name} else known, ops[1..]))
  }

  // ---------------------------------------------------------------- ids are names

  predicate NameHasId(st: State, name: Name) {
    name in st.nameToId ==>
      0 <= st.nameToId[name] < |st.nameToId|
      && st.nameToId[name] in st.idToName && st.idToName[st.nameToId[name]] == name
  }

  predicate IdHasName(st: State, id: int) {
    0 <= id < |st.nameToId| ==> id in st.idToName && st.idToName[id] in st.nameToId && st.nameToId[st.idToName[id]] == id
  }

  /** Names and the ids below their number correspond one to one, and both tables agree on it. */
  ghost predicate Numbered(st: State) {
    (forall name :: NameHasId(st, name)) && forall id :: IdHasName(st, id)
  }

  predicate Spells(st: State, ids: seq<int>, names: seq<Name>) {
    |ids| == |names| && forall k :: 0 <= k < |names| ==> names[k] in st.nameToId && ids[k] == st.nameToId[names[k]]
  }

  predicate PairAgrees(st: State, order: Graph, a: Name, b: Name) {
    Edge(order, a, b) <==>
      a in st.nameToId && b in st.nameToId && Edge(st.history, st.nameToId[a], st.nameToId[b])
  }

  /** The profiler's state is what the names say, written in ids. */
  ghost predicate Agrees(st: State, nm: Names) {
    && Numbered(st) && nm.known == st.nameToId.Keys && Simple(st.history, |st.nameToId|)
    && (forall t :: Spells(st, StackOf(st, t), NamesOf(nm, t)))
    && (forall a, b :: PairAgrees(st, nm.order, a, b))
  }

  lemma EmptyAgrees()
    ensures Agrees(EMPTY, NOTHING)
  {
  }

  lemma OneMore(m: map<Name, int>, name: Name, id: int)
    requires name !in m
    ensures |m[name := id]| == |m| + 1
  {
    assert m[name := id].Keys == m.Keys + {name};
  }

  lemma RegisterNumbers(st: State, name: Name)
    requires Numbered(st)
    ensures Numbered(Register(st, name)) && name in Register(st, name).nameToId
    ensures Register(st, name).nameToId.Keys == st.nameToId.Keys + {name}
    ensures name !in st.nameToId ==> Register(st, name).nameToId[name] == |st.nameToId|
  {
    RegisterAdds(st, name);
    var st' := Register(st, name);
    hide NameHasId, IdHasName, Register;
    forall n
      ensures NameHasId(st', n)
    {
      RegisteredName(st, name, n);
    }
    forall id
      ensures IdHasName(st', id)
    {
      RegisteredId(st, name, id);
    }
  }

  lemma RegisterAdds(st: State, name: Name)
    ensures name in Register(st, name).nameToId && Register(st, name).nameToId.Keys == st.nameToId.Keys + {name}
    ensures name !in st.nameToId ==> Register(st, name).nameToId[name] == |st.nameToId|
  {
  }

  lemma RegisteredName(st: State, name: Name, n: Name)
    requires Numbered(st)
    ensures NameHasId(Register(st, name), n)
  {
    if name !in st.nameToId {
      OneMore(st.nameToId, name, |st.nameToId|);
    }
    assert NameHasId(st, n);
    hide Numbered;
  }

  lemma RegisteredId(st: State, name: Name, id: int)
    requires Numbered(st)
    ensures IdHasName(Register(st, name), id)
  {
    if name !in st.nameToId {
      OneMore(st.nameToId, name, |st.nameToId|);
    }
    assert IdHasName(st, id);
    hide Numbered;
  }

  /** The last id of a stack is the last name of the other. */
  lemma TopsAgree(st: State, nm: Names, t: Thread)
    requires Agrees(st, nm)
    ensures StackOf(st, t) == [] <==> NamesOf(nm, t) == []
    ensures NamesOf(nm, t) != [] ==> Last(NamesOf(nm, t)) in st.nameToId
                                     && Last(StackOf(st, t)) == st.nameToId[Last(NamesOf(nm, t))]
  {
    assert Spells(st, StackOf(st, t), NamesOf(nm, t));
  }

  lemma NewAgrees(st: State, nm: Names, t: Thread, name: Name)
    requires Agrees(st, nm)
    ensures IsNewEdge(st, t, Register(st, name).nameToId[name]) <==> IsNewPair(nm, t, name)
  {
    TopsAgree(st, nm, t);
    if NamesOf(nm, t) != [] {
      var top, id := Last(NamesOf(nm, t)), Register(st, name).nameToId[name];
      assert PairAgrees(st, nm.order, top, name);
      if name in st.nameToId {
        OneName(st, name, top);
      } else {
        assert NameHasId(st, top);
        assert Edge(st.history, Last(StackOf(st, t)), id) ==> id < |st.nameToId|;
      }
    }
  }

  lemma PushAgrees(st: State, nm: Names, t: Thread, name: Name)
    requires Agrees(st, nm)
    ensures Agrees(PushNext(st, t, name), NamePush(nm, t, name))
  {
    var st', nm' := PushNext(st, t, name), NamePush(nm, t, name);
    RegisterNumbers(st, name);
    SameNumbers(Register(st, name), st');
    PushedSimple(st, nm, t, name);
    forall u
      ensures Spells(st', StackOf(st', u), NamesOf(nm', u))
    {
      PushedSpells(st, nm, t, name, u);
    }
    forall a, b
      ensures PairAgrees(st', nm'.order, a, b)
    {
      PushedPair(st, nm, t, name, a, b);
    }
    hide Numbered, PairAgrees, Simple, Spells, IsNewEdge;
  }

  lemma PushedSpells(st: State, nm: Names, t: Thread, name: Name, u: Thread)
    requires Agrees(st, nm)
    ensures var st', nm' := PushNext(st, t, name), NamePush(nm, t, name);
            Spells(st', StackOf(st', u), NamesOf(nm', u))
  {
    assert Spells(st, StackOf(st, u), NamesOf(nm, u));
    hide Agrees, IsNewEdge;
  }

  lemma PushedSimple(st: State, nm: Names, t: Thread, name: Name)
    requires Agrees(st, nm)
    ensures Simple(PushNext(st, t, name).history, |PushNext(st, t, name).nameToId|)
  {
    assert IdsInRange(st) by { AgreesInRange(st, nm); }
    IdsStayInRange(st, t, name);
  }

  lemma AgreesInRange(st: State, nm: Names)
    requires Agrees(st, nm)
    ensures IdsInRange(st)
  {
    forall name | name in st.nameToId
      ensures 0 <= st.nameToId[name] < |st.nameToId|
    {
      assert NameHasId(st, name);
    }
    forall t, k | t in st.stacks && 0 <= k < |st.stacks[t]|
      ensures 0 <= st.stacks[t][k] < |st.nameToId|
    {
      assert Spells(st, StackOf(st, t), NamesOf(nm, t));
      assert NameHasId(st, NamesOf(nm, t)[k]);
    }
  }

  lemma PushedPair(st: State, nm: Names, t: Thread, name: Name, a: Name, b: Name)
    requires Agrees(st, nm)
    ensures PairAgrees(PushNext(st, t, name), NamePush(nm, t, name).order, a, b)
  {
    RegisterNumbers(st, name);
    NewAgrees(st, nm, t, name);
    TopsAgree(st, nm, t);
    var st1 := Register(st, name);
    assert Numbered(st1);
    RegisteredPair(st, nm, name, a, b);
    hide Agrees, Numbered, Register, IsNewEdge, IsNewPair, Simple;
    if IsNewPair(nm, t, name) {
      var top := Last(NamesOf(nm, t));
      EdgesAfter(nm.order, top, name, a, b);
      if a in st1.nameToId && b in st1.nameToId {
        EdgesAfter(st.history, st1.nameToId[top], st1.nameToId[name], st1.nameToId[a], st1.nameToId[b]);
        OneName(st1, a, top);
        OneName(st1, b, name);
      }
    }
  }

  lemma OneName(st: State, a: Name, b: Name)
    requires Numbered(st) && a in st.nameToId && b in st.nameToId
    ensures st.nameToId[a] == st.nameToId[b] <==> a == b
  {
    assert NameHasId(st, a) && NameHasId(st, b);
  }

  /** A name just registered has no edges. */
  lemma RegisteredPair(st: State, nm: Names, name: Name, a: Name, b: Name)
    requires Agrees(st, nm)
    ensures PairAgrees(Register(st, name), nm.order, a, b)
  {
    RegisterNumbers(st, name);
    assert PairAgrees(st, nm.order, a, b);
    assert a in st.nameToId ==> NameHasId(st, a);
    var ids := Register(st, name).nameToId;
    if a in ids && b in ids && Edge(st.history, ids[a], ids[b]) {
      assert ids[a] < |st.nameToId| && ids[b] < |st.nameToId|;
      assert a in st.nameToId && b in st.nameToId;
    }
  }

  lemma PopAgrees(st: State, nm: Names, t: Thread, name: Name)
    requires Agrees(st, nm) && name in nm.known
    ensures PopCrashes(st, t, name).Some? <==> NameCrash(nm, Pop(t, name))
    ensures NamesOf(nm, t) == [] ==> PopCrashes(st, t, name) == Some(MultipleUnlock)
    ensures NamesOf(nm, t) != [] && Last(NamesOf(nm, t)) != name ==> PopCrashes(st, t, name) == Some(InvalidUnlock)
    ensures PopCrashes(st, t, name).None? ==> Agrees(PopNext(st, t, name), NamePop(nm, t))
  {
    TopsAgree(st, nm, t);
    if NamesOf(nm, t) != [] {
      OneName(st, name, Last(NamesOf(nm, t)));
    }
    if PopCrashes(st, t, name).None? {
      var st', nm' := PopNext(st, t, name), NamePop(nm, t);
      forall u
        ensures Spells(st', StackOf(st', u), NamesOf(nm', u))
      {
        assert Spells(st, StackOf(st, u), NamesOf(nm, u));
      }
      forall a, b
        ensures PairAgrees(st', nm'.order, a, b)
      {
        assert PairAgrees(st, nm.order, a, b);
      }
      assert st'.nameToId == st.nameToId;
      SameNumbers(st, st');
    }
  }

  lemma SameNumbers(st: State, st': State)
    requires Numbered(st) && st'.nameToId == st.nameToId && st'.idToName == st.idToName
    ensures Numbered(st')
  {
    forall name
      ensures NameHasId(st', name)
    {
      assert NameHasId(st, name);
    }
    forall id
      ensures IdHasName(st', id)
    {
      assert IdHasName(st, id);
    }
  }

  lemma CycleOfIds(st: State, nm: Names)
    requires Agrees(st, nm) && HasCycle(nm.order)
    ensures HasCycle(st.history)
  {
    var a :| Reaches(nm.order, a, a);
    var walk :| WalkFromTo(nm.order, walk, a, a);
    forall k | 0 <= k < |walk|
      ensures walk[k] in st.nameToId
    {
      assert Edge(nm.order, walk[0], walk[1]) && PairAgrees(st, nm.order, walk[0], walk[1]);
      if k > 0 {
        assert Edge(nm.order, walk[k - 1], walk[k - 1 + 1]) && PairAgrees(st, nm.order, walk[k - 1], walk[k]);
      }
    }
    var ids := seq(|walk|, k requires 0 <= k < |walk| => st.nameToId[walk[k]]);
    forall k | 0 <= k < |ids| - 1
      ensures Edge(st.history, ids[k], ids[k + 1])
    {
      assert PairAgrees(st, nm.order, walk[k], walk[k + 1]);
    }
    assert WalkFromTo(st.history, ids, ids[0], ids[0]);
    assert Reaches(st.history, ids[0], ids[0]);
  }

  lemma CycleOfNames(st: State, nm: Names)
    requires Agrees(st, nm) && HasCycle(st.history)
    ensures HasCycle(nm.order)
  {
    var a :| Reaches(st.history, a, a);
    var walk :| WalkFromTo(st.history, walk, a, a);
    forall k | 0 <= k < |walk|
      ensures 0 <= walk[k] < |st.nameToId| && walk[k] in st.idToName && st.idToName[walk[k]] in st.nameToId
              && st.nameToId[st.idToName[walk[k]]] == walk[k]
    {
      assert Edge(st.history, walk[0], walk[1]);
      if k > 0 {
        assert Edge(st.history, walk[k - 1], walk[k - 1 + 1]);
      }
      assert IdHasName(st, walk[k]);
    }
    var names := seq(|walk|, k requires 0 <= k < |walk| => st.idToName[walk[k]]);
    forall k | 0 <= k < |names| - 1
      ensures Edge(nm.order, names[k], names[k + 1])
    {
      assert Edge(st.history, walk[k], walk[k + 1]) && PairAgrees(st, nm.order, names[k], names[k + 1]);
    }
    assert WalkFromTo(nm.order, names, names[0], names[0]);
    assert Reaches(nm.order, names[0], names[0]);
  }

  lemma HistoryChanges(st: State, t: Thread, name: Name)
    ensures PushNext(st, t, name).history != st.history <==> IsNewEdge(st, t, Register(st, name).nameToId[name])
  {
    var st' := PushNext(st, t, name);
    if IsNewEdge(st, t, Register(st, name).nameToId[name]) {
      assert Edge(st'.history, Last(StackOf(st, t)), Register(st, name).nameToId[name]);
    }
  }

  /** A call crashes on ids exactly when it should on names, and otherwise keeps the two in agreement. */
  lemma StepAgrees(st: State, nm: Names, op: Op)
    requires Agrees(st, nm) && (op.Pop? ==> op.name in nm.known)
    ensures Crashes(st, op) <==> NameCrash(nm, op)
    ensures !Crashes(st, op) ==> Agrees(Next(st, op), NameNext(nm, op))
  {
    match op
    case Pop(t, name) => PopAgrees(st, nm, t, name);
    case Push(t, name) =>
      PushAgrees(st, nm, t, name);
      NewAgrees(st, nm, t, name);
      HistoryChanges(st, t, name);
      hide Agrees, IsNewEdge, IsNewPair, HasCycle, PushNext;
      if HasCycle(PushNext(st, t, name).history) {
        CycleOfNames(PushNext(st, t, name), NamePush(nm, t, name));
      }
      if HasCycle(OrderAfter(nm, t, name)) {
        CycleOfIds(PushNext(st, t, name), NamePush(nm, t, name));
      }
  }

  /** What goes through by name goes through. */
  lemma {:induction false} NamesRun(st: State, nm: Names, ops: seq<Op>, nmEnd: Names)
    requires Agrees(st, nm) && PopsKnown(nm.known, ops) && NameRun(nm, ops, nmEnd)
    ensures exists end :: Run(st, ops, end) && Agrees(end, nmEnd)
    decreases |ops|
  {
    hide Agrees, Crashes, NameCrash, Next;
    if ops == [] {
      assert Run(st, ops, st);
    } else {
      StepAgrees(st, nm, ops[0]);
      NamesRun(Next(st, ops[0]), NameNext(nm, ops[0]), ops[1..], nmEnd);
      var end :| Run(Next(st, ops[0]), ops[1..], end) && Agrees(end, nmEnd);
      assert Run(st, ops, end);
    }
  }

  lemma {:induction false} RunAgrees(st: State, nm: Names, ops: seq<Op>, end: State)
    requires Agrees(st, nm) && PopsKnown(nm.known, ops) && Run(st, ops, end)
    ensures exists nmEnd :: NameRun(nm, ops, nmEnd) && Agrees(end, nmEnd)
    decreases |ops|
  {
    hide Agrees, Crashes, NameCrash, Next;
    if ops == [] {
      assert NameRun(nm, ops, nm);
    } else {
      StepAgrees(st, nm, ops[0]);
      RunAgrees(Next(st, ops[0]), NameNext(nm, ops[0]), ops[1..], end);
      var nmEnd :| NameRun(NameNext(nm, ops[0]), ops[1..], nmEnd) && Agrees(end, nmEnd);
      assert NameRun(nm, ops, nmEnd);
    }
  }

  /** Over every run in which whoever pops a lock names one that has been pushed, the profiler does with ids
      what is to be done with names: different names have different ids and each id its name, the stacks spell
      the names pushed and not popped, and the graph is that of the pairs of names. */
  lemma IdsAreNames(ops: seq<Op>, end: State)
    requires Run(EMPTY, ops, end) && PopsKnown({}, ops)
    ensures exists nm :: NameRun(NOTHING, ops, nm) && Agrees(end, nm)
    ensures forall a, b :: a in end.nameToId && b in end.nameToId && a != b ==> end.nameToId[a] != end.nameToId[b]
    ensures forall name :: name in end.nameToId ==>
              end.nameToId[name] in end.idToName && end.idToName[end.nameToId[name]] == name
  {
    hide Run, NameRun, PopsKnown;
    EmptyAgrees();
    RunAgrees(EMPTY, NOTHING, ops, end);
    var nm :| NameRun(NOTHING, ops, nm) && Agrees(end, nm);
    forall a, b | a in end.nameToId && b in end.nameToId && a != b
      ensures end.nameToId[a] != end.nameToId[b]
    {
      OneName(end, a, b);
    }
    forall name | name in end.nameToId
      ensures end.nameToId[name] in end.idToName && end.idToName[end.nameToId[name]] == name
    {
      assert NameHasId(end, name);
    }
  }

  // ---------------------------------------------------------------- which calls are reported

  lemma EdgesAfter(g: Graph, a: int, b: int, x: int, y: int)
    ensures Edge(WithEdge(g, a, b), x, y) <==> Edge(g, x, y) || (x == a && y == b)
  {
  }

  /** A walk in the graph with one more edge either avoids it or comes to its start and goes on from its end. */
  lemma {:induction false} WalkWithEdge(g: Graph, a: int, b: int, walk: seq<int>, x: int, y: int)
    requires WalkFromTo(WithEdge(g, a, b), walk, x, y)
    ensures Reaches(g, x, y) || (Leads(g, x, a) && Leads(g, b, y))
    decreases |walk|
  {
    var g' := WithEdge(g, a, b);
    var mid := walk[1];
    assert Edge(g', walk[0], walk[0 + 1]);
    EdgesAfter(g, a, b, x, mid);
    hide WithEdge;
    if |walk| > 2 {
      assert IsWalk(g', walk[1..]) by {
        forall k | 0 <= k < |walk[1..]| - 1
          ensures Edge(g', walk[1..][k], walk[1..][k + 1])
        {
          assert Edge(g', walk[k + 1], walk[k + 1 + 1]);
        }
      }
      WalkWithEdge(g, a, b, walk[1..], mid, y);
    }
    if Edge(g, x, mid) {
      assert WalkFromTo(g, [x, mid], x, mid);
      if mid != y {
        StepThen(g, a, b, x, mid, y);
      } else {
        assert Reaches(g, x, y);
      }
    } else {
      EdgeThen(g, a, b, mid, y);
    }
  }

  lemma StepThen(g: Graph, a: int, b: int, x: int, mid: int, y: int)
    requires Reaches(g, x, mid) && (Reaches(g, mid, y) || (Leads(g, mid, a) && Leads(g, b, y)))
    ensures Reaches(g, x, y) || (Leads(g, x, a) && Leads(g, b, y))
  {
    hide Reaches;
    if Reaches(g, mid, y) {
      ReachTrans(g, x, mid, y);
    } else {
      LeadsTrans(g, x, mid, a);
    }
  }

  lemma EdgeThen(g: Graph, a: int, b: int, mid: int, y: int)
    requires mid == b && (mid == y || Reaches(g, mid, y) || (Leads(g, mid, a) && Leads(g, b, y)))
    ensures Leads(g, a, a) && Leads(g, b, y)
  {
  }

  /** An edge closes a cycle in an acyclic graph exactly when its end leads to its start. */
  lemma ClosesIff(g: Graph, a: int, b: int)
    requires !HasCycle(g) && a != b
    ensures HasCycle(WithEdge(g, a, b)) <==> Reaches(g, b, a)
  {
    var g' := WithEdge(g, a, b);
    if HasCycle(g') {
      var x :| Reaches(g', x, x);
      var walk :| WalkFromTo(g', walk, x, x);
      WalkWithEdge(g, a, b, walk, x, x);
      assert !Reaches(g, x, x);
      LeadsTrans(g, b, x, a);
    }
    if Reaches(g, b, a) {
      var walk :| WalkFromTo(g, walk, b, a);
      var around := [a] + walk;
      forall k | 0 <= k < |around| - 1
        ensures Edge(g', around[k], around[k + 1])
      {
        EdgesAfter(g, a, b, around[k], around[k + 1]);
        assert k > 0 ==> Edge(g, walk[k - 1], walk[k - 1 + 1]);
      }
      assert WalkFromTo(g', around, a, a);
      assert Reaches(g', a, a);
    }
  }

  lemma NoCycleThrough(g: Graph, a: int, b: int)
    requires !HasCycle(g) && Edge(g, a, b)
    ensures !Reaches(g, b, a)
  {
    assert WalkFromTo(g, [a, b], a, b);
    if Reaches(g, b, a) {
      ReachTrans(g, a, b, a);
    }
  }

  /** A push is reported if and only if the lock is not the one on top and, by the pairs recorded in the run
      so far, whichever threads recorded them, leads to it. */
  lemma PushIsReportedIff(ops: seq<Op>, end: State, nm: Names, t: Thread, name: Name)
    requires Run(EMPTY, ops, end) && PopsKnown({}, ops) && NameRun(NOTHING, ops, nm) && Agrees(end, nm)
    ensures Crashes(end, Push(t, name)) <==>
            NamesOf(nm, t) != [] && Last(NamesOf(nm, t)) != name && Reaches(nm.order, name, Last(NamesOf(nm, t)))
  {
    hide Run, NameRun, PopsKnown, Agrees, Crashes, Reaches;
    StepAgrees(end, nm, Push(t, name));
    assert !HasCycle(nm.order) by {
      RunIsAcyclic(ops, end);
      if HasCycle(nm.order) {
        CycleOfIds(end, nm);
      }
    }
    hide HasCycle, WithEdge;
    if NamesOf(nm, t) != [] && Last(NamesOf(nm, t)) != name {
      ClosesIff(nm.order, Last(NamesOf(nm, t)), name);
      if Edge(nm.order, Last(NamesOf(nm, t)), name) {
        NoCycleThrough(nm.order, Last(NamesOf(nm, t)), name);
      }
    }
  }

  /** Two locks taken one inside the other by one thread, and the other way round by another, are reported. */
  lemma OppositeOrdersAreReported(t: Thread, u: Thread, a: Name, b: Name)
    requires t != u && a != b
    ensures exists end :: Run(EMPTY, [Push(t, a), Push(t, b), Push(u, b)], end) && Crashes(end, Push(u, a))
  {
    var ops := [Push(t, a), Push(t, b), Push(u, b)];
    var nm: Names := Names({a, b}, map[a := {b}], map[t := [a, b], u := [b]]);
    OneEdge(a, b);
    FirstSteps(t, u, a, b);
    EmptyAgrees();
    hide HasCycle, Agrees, IsNewPair, OrderAfter, Crashes;
    assert PopsKnown({}, ops) by { PushesOnly({}, ops); }
    NamesRun(EMPTY, NOTHING, ops, nm);
    var end :| Run(EMPTY, ops, end) && Agrees(end, nm);
    StepAgrees(end, nm, Push(u, a));
  }

  lemma {:induction false} PushesOnly(known: set<Name>, ops: seq<Op>)
    requires forall k :: 0 <= k < |ops| ==> ops[k].Push?
    ensures PopsKnown(known, ops)
    decreases |ops|
  {
    if ops != [] {
      PushesOnly(known + {ops[0].name}, ops[1..]);
    }
  }

  lemma FirstSteps(t: Thread, u: Thread, a: Name, b: Name)
    requires t != u && a != b && !HasCycle(map[a := {b}])
    ensures var nm: Names := Names({a, b}, map[a := {b}], map[t := [a, b], u := [b]]);
            && NameRun(NOTHING, [Push(t, a), Push(t, b), Push(u, b)], nm)
            && IsNewPair(nm, u, a) && OrderAfter(nm, u, a) == WithEdge(map[a := {b}], b, a)
  {
    var n1: Names := Names({a}, map[], map[t := [a]]);
    var n2: Names := Names({a, b}, map[a := {b}], map[t := [a, b]]);
    var nm: Names := Names({a, b}, map[a := {b}], map[t := [a, b], u := [b]]);
    hide HasCycle;
    assert [a] + [b] == [a, b] && [] + [a] == [a] && [] + [b] == [b];
    assert NamePush(NOTHING, t, a) == n1 && !NameCrash(NOTHING, Push(t, a));
    assert NamesOf(n1, t) == [a] && {} + {b} == {b};
    assert NamePush(n1, t, b) == n2 && !NameCrash(n1, Push(t, b));
    assert NamePush(n2, u, b) == nm && !NameCrash(n2, Push(u, b));
    hide NamePush, NameCrash;
    var ops := [Push(t, a), Push(t, b), Push(u, b)];
    assert ops[1..][1..] == ops[2..] && ops[2..][1..] == [];
    assert NameRun(nm, [], nm) && NameRun(n2, ops[2..], nm) && NameRun(n1, ops[1..], nm);
  }

  lemma NoWalk(g: Graph, a: int, b: int)
    requires g == map[]
    ensures !Reaches(g, a, b)
  {
    forall walk
      ensures !WalkFromTo(g, walk, a, b)
    {
      assert |walk| >= 2 ==> !Edge(g, walk[0], walk[0 + 1]);
    }
  }

  lemma OneEdge(a: Name, b: Name)
    requires a != b
    ensures !HasCycle(map[a := {b}]) && HasCycle(WithEdge(map[a := {b}], b, a))
  {
    var none, g: Graph := map[], map[a := {b}];
    assert forall x, y :: !Edge(none, x, y);
    OrderedIsAcyclic(none, [], 0);
    assert WithEdge(none, a, b) == g by { assert {} + {b} == {b}; }
    ClosesIff(none, a, b);
    assert Reaches(g, a, b) by { assert WalkFromTo(g, [a, b], a, b); }
    NoWalk(none, b, a);
    ClosesIff(g, b, a);
  }

  // ---------------------------------------------------------------- names nobody has pushed

  /** PopLock gives a name that was never pushed the id 0.  The call goes through exactly when the lock of
      that id is on top, and then two names have one id. */
  lemma UnknownPopIff(st: State, nm: Names, t: Thread, name: Name)
    requires Agrees(st, nm) && name !in nm.known && NamesOf(nm, t) != []
    ensures PopCrashes(st, t, name).None? <==> Last(StackOf(st, t)) == 0
    ensures PopCrashes(st, t, name).None? ==>
              var top, st' := Last(NamesOf(nm, t)), PopNext(st, t, name);
              && name != top && name in st'.nameToId && top in st'.nameToId && st'.nameToId[name] == st'.nameToId[top]
              && st'.nameToId[name] in st'.idToName && st'.idToName[st'.nameToId[name]] != name
  {
    TopsAgree(st, nm, t);
    assert NameHasId(st, Last(NamesOf(nm, t)));
  }
}
