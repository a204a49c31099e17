/**
 * EncodedDescriptorDatabase's index: symbols kept as (package, symbol) pairs, new ones in a sorted
 * set, older ones in a sorted vector, and a comparator that avoids building full names.
 */
module SymbolTiers {
  import opened SymbolOrder
  import opened SymbolIndex

  // ---- The comparator -----------------------------------------------------------------------

  /** What SymbolCompare compares: a stored pair, or the plain name a search is for. */
  datatype Key = Pair(package: string, symbol: string) | Text(text: string)

  function AsString(k: Key): string {
    match k
    case Pair(p, s) => FullName(p, s)
    case Text(t) => t
  }

  function GetParts(k: Key): (string, string) {
    match k
    case Pair(p, s) => if p == "" then (s, "") else (p, s)
    case Text(t) => (t, "")
  }

  function Take(s: string, n: nat): string {
    if n < |s| then s[..n] else s
  }

  predicate SymbolLess(lhs: Key, rhs: Key) {
    var l, r := GetParts(lhs), GetParts(rhs);
    var lCut, rCut := Take(l.0, |r.0|), Take(r.0, |l.0|);
    if lCut != rCut then Less(lCut, rCut)
    else if |l.0| == |r.0| then Less(l.1, r.1)
    else Less(AsString(lhs), AsString(rhs))
  }

  lemma {:induction false} LessIgnoresTails(x: string, y: string, u: string, v: string)
    requires |x| == |y| && x != y
    ensures Less(x + u, y + v) == Less(x, y)
    decreases |x|
  {
    assert x + u != "" && y + v != "";
    if x[0] == y[0] {
      assert (x + u)[1..] == x[1..] + u && (y + v)[1..] == y[1..] + v;
      assert x == [x[0]] + x[1..] && y == [y[0]] + y[1..];
      LessIgnoresTails(x[1..], y[1..], u, v);
    }
  }

  lemma {:induction false} LessIgnoresHead(x: string, u: string, v: string)
    ensures Less(x + u, x + v) == Less(u, v)
    decreases |x|
  {
    if x == "" {
      assert x + u == u && x + v == v;
    } else {
      assert (x + u)[1..] == x[1..] + u && (x + v)[1..] == x[1..] + v;
      LessIgnoresHead(x[1..], u, v);
    }
  }

  lemma PartsStartTheName(k: Key)
    ensures GetParts(k).0 <= AsString(k)
  {
  }

  predicate Bare(k: Key) {
    k.Text? || k.package == ""
  }

  /** A name without a package, and the empty symbol of the package of that name. */
  predicate Confusable(lhs: Key, rhs: Key) {
    Bare(lhs) && !Bare(rhs) && rhs.symbol == "" && rhs.package == AsString(lhs)
  }

  /** The comparator is the order of full names, except that it does not see a package with an empty
      symbol after the package's own name. */
  lemma SymbolLessIff(lhs: Key, rhs: Key)
    ensures SymbolLess(lhs, rhs) <==> Less(AsString(lhs), AsString(rhs)) && !Confusable(lhs, rhs)
  {
    hide Less;
    var l, r := GetParts(lhs), GetParts(rhs);
    if Take(l.0, |r.0|) != Take(r.0, |l.0|) {
      PackagesDiffer(lhs, rhs);
    } else if |l.0| == |r.0| {
      SamePackage(lhs, rhs);
    }
  }

  lemma PackagesDiffer(lhs: Key, rhs: Key)
    requires var l, r := GetParts(lhs).0, GetParts(rhs).0; Take(l, |r|) != Take(r, |l|)
    ensures var l, r := GetParts(lhs).0, GetParts(rhs).0;
            Less(Take(l, |r|), Take(r, |l|)) == Less(AsString(lhs), AsString(rhs)) && l != r
  {
    hide Less, AsString, GetParts;
    PartsStartTheName(lhs);
    PartsStartTheName(rhs);
    CutsDecide(GetParts(lhs).0, GetParts(rhs).0, AsString(lhs), AsString(rhs));
  }

  /** Prefixes of two strings that differ where both have characters decide their order. */
  lemma CutsDecide(l: string, r: string, a: string, b: string)
    requires l <= a && r <= b && Take(l, |r|) != Take(r, |l|)
    ensures Less(Take(l, |r|), Take(r, |l|)) == Less(a, b)
  {
    hide Less;
    var lCut, rCut := Take(l, |r|), Take(r, |l|);
    assert a == lCut + a[|lCut|..];
    assert b == rCut + b[|rCut|..];
    LessIgnoresTails(lCut, rCut, a[|lCut|..], b[|rCut|..]);
  }

  lemma SamePackage(lhs: Key, rhs: Key)
    requires GetParts(lhs).0 == GetParts(rhs).0
    ensures Less(GetParts(lhs).1, GetParts(rhs).1) <==>
            Less(AsString(lhs), AsString(rhs)) && !(Bare(lhs) && !Bare(rhs) && rhs.symbol == "")
  {
    var first := GetParts(lhs).0;
    if Bare(lhs) && Bare(rhs) {
      LessIsTotal(first, first);
    } else if Bare(lhs) {
      assert AsString(rhs) == first + ("." + rhs.symbol);
      LessAfterPrefix(first, "." + rhs.symbol);
    } else if Bare(rhs) {
      assert AsString(lhs) == first + ("." + lhs.symbol);
      LessAfterPrefix(first, "." + lhs.symbol);
      LessIsTotal(AsString(lhs), first);
    } else {
      LessIgnoresHead(first + ".", lhs.symbol, rhs.symbol);
    }
  }

  /** With an empty symbol the comparator is not an order: two names each equivalent to a third are not
      equivalent to each other. */
  lemma {:induction false} EmptySymbolBreaksTheOrder()
    ensures var one, two, three := Pair("a.b", ""), Pair("", "a.b"), Pair("a", "b");
            && !SymbolLess(one, two) && !SymbolLess(two, one)
            && !SymbolLess(two, three) && !SymbolLess(three, two)
            && SymbolLess(three, one)
  {
    var one, two, three := Pair("a.b", ""), Pair("", "a.b"), Pair("a", "b");
    assert AsString(one) == "a.b." && AsString(two) == "a.b" && AsString(three) == "a.b";
    LessIsTotal("a.b", "a.b");
    LessAfterPrefix("a.b", ".");
    LessIsTotal("a.b", "a.b.");
    SymbolLessIff(one, two);
    SymbolLessIff(two, one);
    SymbolLessIff(two, three);
    SymbolLessIff(three, two);
    SymbolLessIff(three, one);
  }

  // ---- The two tiers ------------------------------------------------------------------------

  datatype SymbolEntry = SymbolEntry(offset: nat, symbol: string)
  datatype EncodedEntry<V> = EncodedEntry(value: V, package: string)

  /** Every stored entry names a file. */
  predicate InRange<V>(all: seq<EncodedEntry<V>>, s: seq<SymbolEntry>) {
    forall i :: 0 <= i < |s| ==> s[i].offset < |all|
  }

  function KeyOf<V>(all: seq<EncodedEntry<V>>, e: SymbolEntry): Key
    requires e.offset < |all|
  {
    Pair(all[e.offset].package, e.symbol)
  }

  /** The entry of the one sorted map that a stored pair stands for. */
  function NamedEntry<V>(all: seq<EncodedEntry<V>>, e: SymbolEntry): Entry<V>
    requires e.offset < |all|
  {
    Entry(FullName(all[e.offset].package, e.symbol), all[e.offset].value)
  }

  function Named<V>(all: seq<EncodedEntry<V>>, s: seq<SymbolEntry>): (r: seq<Entry<V>>)
    requires InRange(all, s)
  {
    seq(|s|, i requires 0 <= i < |s| => NamedEntry(all, s[i]))
  }

  function Names<V>(all: seq<EncodedEntry<V>>, s: seq<SymbolEntry>): seq<string>
    requires InRange(all, s)
  {
    Keys(Named(all, s))
  }

  function UpperBoundBy<V>(all: seq<EncodedEntry<V>>, s: seq<SymbolEntry>, key: Key): (n: nat)
    requires InRange(all, s)
    ensures n <= |s|
  {
    if s == [] || SymbolLess(key, KeyOf(all, s[0])) then 0 else 1 + UpperBoundBy(all, s[1..], key)
  }

  /** Confusable names are a package and its sub-symbol. */
  lemma ConfusedIsCovered(lhs: Key, rhs: Key)
    requires Confusable(lhs, rhs)
    ensures IsSubSymbol(AsString(lhs), AsString(rhs)) && !IsSubSymbol(AsString(rhs), AsString(lhs))
    ensures AsString(rhs) == AsString(lhs) + "."
    ensures Less(AsString(lhs), AsString(rhs))
  {
    assert AsString(rhs) == AsString(lhs) + ".";
    LessAfterPrefix(AsString(lhs), ".");
  }

  /** The first stored name above the one sought is confused with it, and passed over. */
  predicate PassesOver<V>(all: seq<EncodedEntry<V>>, s: seq<SymbolEntry>, key: Key)
    requires InRange(all, s)
  {
    var n := UpperBound(Names(all, s), AsString(key));
    n < |s| && Confusable(key, KeyOf(all, s[n]))
  }

  /** Searching with the comparator is searching the full names, one further when the name met is
      confusable with the one sought. */
  lemma {:induction false} SearchesFullNames<V>(all: seq<EncodedEntry<V>>, s: seq<SymbolEntry>, key: Key)
    requires InRange(all, s) && Sorted(Names(all, s))
    ensures UpperBoundBy(all, s, key) == UpperBound(Names(all, s), AsString(key)) + if PassesOver(all, s, key) then 1 else 0
  {
    hide SymbolLess, Less;
    if s != [] {
      var keys := Names(all, s);
      assert keys[1..] == Names(all, s[1..]);
      assert Sorted(keys[1..]);
      SymbolLessIff(key, KeyOf(all, s[0]));
      if !Less(AsString(key), keys[0]) {
        SearchesFullNames(all, s[1..], key);
      } else if Confusable(key, KeyOf(all, s[0])) {
        SearchesFullNames(all, s[1..], key);
        if |s| > 1 {
          NextIsClear(all, s, key);
        }
      }
    }
  }

  /** Behind a confusable name comes another that is not. */
  lemma NextIsClear<V>(all: seq<EncodedEntry<V>>, s: seq<SymbolEntry>, key: Key)
    requires InRange(all, s) && Sorted(Names(all, s)) && |s| > 1 && Confusable(key, KeyOf(all, s[0]))
    ensures Less(AsString(key), Names(all, s)[1]) && !Confusable(key, KeyOf(all, s[1]))
  {
    var keys := Names(all, s);
    ConfusedIsCovered(key, KeyOf(all, s[0]));
    assert Less(keys[0], keys[1]);
    LessIsTransitive(AsString(key), keys[0], keys[1]);
    if Confusable(key, KeyOf(all, s[1])) {
      ConfusedIsCovered(key, KeyOf(all, s[1]));
      LessIsTotal(keys[0], keys[1]);
    }
  }

  /** std::merge: the first range wins ties. */
  function Merge<V>(all: seq<EncodedEntry<V>>, a: seq<SymbolEntry>, b: seq<SymbolEntry>): (r: seq<SymbolEntry>)
    requires InRange(all, a) && InRange(all, b)
    ensures InRange(all, r) && |r| == |a| + |b|
  {
    if a == [] then b
    else if b == [] then a
    else if SymbolLess(KeyOf(all, b[0]), KeyOf(all, a[0])) then [b[0]] + Merge(all, a, b[1..])
    else [a[0]] + Merge(all, a[1..], b)
  }

  lemma HeadCounts<T>(s: seq<T>)
    requires s != []
    ensures multiset(s) == multiset{s[0]} + multiset(s[1..])
  {
    assert s == [s[0]] + s[1..];
  }

  lemma {:induction false} MergeHasBoth<V>(all: seq<EncodedEntry<V>>, a: seq<SymbolEntry>, b: seq<SymbolEntry>)
    requires InRange(all, a) && InRange(all, b)
    ensures multiset(Merge(all, a, b)) == multiset(a) + multiset(b)
  {
    hide SymbolLess, KeyOf;
    if a != [] && b != [] {
      if SymbolLess(KeyOf(all, b[0]), KeyOf(all, a[0])) {
        MergeHasBoth(all, a, b[1..]);
        HeadCounts(b);
        HeadCounts([b[0]] + Merge(all, a, b[1..]));
      } else {
        MergeHasBoth(all, a[1..], b);
        HeadCounts(a);
        HeadCounts([a[0]] + Merge(all, a[1..], b));
      }
    }
  }

  function NameOf<V>(all: seq<EncodedEntry<V>>, e: SymbolEntry): string
    requires e.offset < |all|
  {
    NamedEntry(all, e).key
  }

  /** No name is in both tiers. */
  ghost predicate Disjoint<V>(all: seq<EncodedEntry<V>>, a: seq<SymbolEntry>, b: seq<SymbolEntry>)
    requires InRange(all, a) && InRange(all, b)
  {
    forall d, e :: d in a && e in b ==> NameOf(all, d) != NameOf(all, e)
  }

  ghost predicate Above<V>(all: seq<EncodedEntry<V>>, s: seq<SymbolEntry>, name: string)
    requires InRange(all, s)
  {
    forall e :: e in s ==> Less(name, NameOf(all, e))
  }

  lemma SortedTail<V>(all: seq<EncodedEntry<V>>, s: seq<SymbolEntry>)
    requires InRange(all, s) && s != [] && Sorted(Names(all, s))
    ensures Sorted(Names(all, s[1..])) && Above(all, s[1..], NameOf(all, s[0]))
  {
    var keys := Names(all, s);
    assert Names(all, s[1..]) == keys[1..];
    forall e | e in s[1..]
      ensures Less(NameOf(all, s[0]), NameOf(all, e))
    {
      var i :| 0 <= i < |s| - 1 && s[1..][i] == e;
      assert Less(keys[0], keys[i + 1]);
    }
  }

  lemma SortedCons<V>(all: seq<EncodedEntry<V>>, e: SymbolEntry, s: seq<SymbolEntry>)
    requires e.offset < |all|
    requires InRange(all, s) && Sorted(Names(all, s)) && Above(all, s, NameOf(all, e))
    ensures InRange(all, [e] + s) && Sorted(Names(all, [e] + s))
  {
    var keys, after := Names(all, s), Names(all, [e] + s);
    assert after == [NameOf(all, e)] + keys;
    forall i, j | 0 <= i < j < |after|
      ensures Less(after[i], after[j])
    {
      if i == 0 {
        assert s[j - 1] in s;
      } else {
        assert Less(keys[i - 1], keys[j - 1]);
      }
    }
  }

  lemma AboveLower<V>(all: seq<EncodedEntry<V>>, e: SymbolEntry, s: seq<SymbolEntry>)
    requires InRange(all, s) && s != [] && e.offset < |all|
    requires Less(NameOf(all, e), NameOf(all, s[0])) && Above(all, s[1..], NameOf(all, s[0]))
    ensures Above(all, s, NameOf(all, e))
  {
    forall d | d in s
      ensures Less(NameOf(all, e), NameOf(all, d))
    {
      if d != s[0] {
        assert s == [s[0]] + s[1..];
        assert d in s[1..];
        LessIsTransitive(NameOf(all, e), NameOf(all, s[0]), NameOf(all, d));
      }
    }
  }

  lemma MergedMembers<V>(all: seq<EncodedEntry<V>>, a: seq<SymbolEntry>, b: seq<SymbolEntry>, e: SymbolEntry)
    requires InRange(all, a) && InRange(all, b)
    ensures e in Merge(all, a, b) <==> e in a || e in b
  {
    MergeHasBoth(all, a, b);
    assert e in Merge(all, a, b) <==> e in multiset(Merge(all, a, b));
    assert e in a <==> e in multiset(a);
    assert e in b <==> e in multiset(b);
  }

  lemma MergeStaysAbove<V>(all: seq<EncodedEntry<V>>, a: seq<SymbolEntry>, b: seq<SymbolEntry>, name: string)
    requires InRange(all, a) && InRange(all, b)
    requires Above(all, a, name) && Above(all, b, name)
    ensures Above(all, Merge(all, a, b), name)
  {
    forall e | e in Merge(all, a, b)
      ensures Less(name, NameOf(all, e))
    {
      MergedMembers(all, a, b, e);
    }
  }

  /** No name of `b` is confusable with one of `a`. */
  ghost predicate Clear<V>(all: seq<EncodedEntry<V>>, a: seq<SymbolEntry>, b: seq<SymbolEntry>)
    requires InRange(all, a) && InRange(all, b)
  {
    forall d, e :: d in a && e in b ==> !Confusable(KeyOf(all, e), KeyOf(all, d))
  }

  /** Merging two sorted tiers that share no name, and none of which are confusable, gives a sorted vector. */
  lemma {:induction false} MergeIsSorted<V>(all: seq<EncodedEntry<V>>, a: seq<SymbolEntry>, b: seq<SymbolEntry>)
    requires InRange(all, a) && InRange(all, b) && Disjoint(all, a, b) && Clear(all, a, b)
    requires Sorted(Names(all, a)) && Sorted(Names(all, b))
    ensures Sorted(Names(all, Merge(all, a, b)))
  {
    hide Sorted, Names, Less, Above, SymbolLess;
    if a != [] && b != [] {
      SortedTail(all, a);
      SortedTail(all, b);
      SymbolLessIff(KeyOf(all, b[0]), KeyOf(all, a[0]));
      LessIsTotal(NameOf(all, a[0]), NameOf(all, b[0]));
      assert a[0] in a && b[0] in b;
      if SymbolLess(KeyOf(all, b[0]), KeyOf(all, a[0])) {
        AboveLower(all, b[0], a);
        MergeIsSorted(all, a, b[1..]);
        MergeStaysAbove(all, a, b[1..], NameOf(all, b[0]));
        SortedCons(all, b[0], Merge(all, a, b[1..]));
      } else {
        AboveLower(all, a[0], b);
        MergeIsSorted(all, a[1..], b);
        MergeStaysAbove(all, a[1..], b, NameOf(all, a[0]));
        SortedCons(all, a[0], Merge(all, a[1..], b));
      }
    }
  }
}
