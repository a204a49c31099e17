/**
 * The descriptor databases' symbol index: a sorted map no key of which is a dotted parent of
 * another, searched with one probe.
 *
 * When every key sorts above the name being added, the code steps over the first key before it
 * looks for a sub-symbol.  `fixed` selects the evident intent (true) or the code as written (false).
 */
module SymbolIndex {
  import opened Options
  import opened SymbolOrder

  datatype Entry<V> = Entry(key: string, value: V)

  function Keys<V>(entries: seq<Entry<V>>): seq<string> {
    seq(|entries|, i requires 0 <= i < |entries| => entries[i].key)
  }

  predicate Sorted(keys: seq<string>) {
    forall i, j :: 0 <= i < j < |keys| ==> Less(keys[i], keys[j])
  }

  predicate AllValid(keys: seq<string>) {
    forall i :: 0 <= i < |keys| ==> ValidName(keys[i])
  }

  /** The map invariant: no key covers another. */
  predicate PrefixFree(keys: seq<string>) {
    forall i, j :: 0 <= i < |keys| && 0 <= j < |keys| && i != j ==> !IsSubSymbol(keys[i], keys[j])
  }

  /** What every sequence of calls keeps, whatever becomes of the map invariant. */
  predicate Ordered(keys: seq<string>) {
    Sorted(keys) && AllValid(keys)
  }

  /** `upper_bound`: the position of the first key greater than `name`. */
  function UpperBound(keys: seq<string>, name: string): (n: nat)
    ensures n <= |keys|
  {
    if keys == [] || Less(name, keys[0]) then 0 else 1 + UpperBound(keys[1..], name)
  }

  /** The position `FindLastLessOrEqual` returns; `|keys|` stands for `end()`. */
  function FindLastLessOrEqual(keys: seq<string>, name: string): (n: nat)
    ensures n <= |keys|
  {
    var n := UpperBound(keys, name);
    if n == 0 then 0 else n - 1
  }

  /** The two comparisons AddSymbol makes before it inserts, when `upper_bound` is `n`. */
  predicate ClashAt(keys: seq<string>, n: nat, name: string, fixed: bool)
    requires n <= |keys|
  {
    if fixed then
      (0 < n && IsSubSymbol(keys[n - 1], name)) || (n < |keys| && IsSubSymbol(name, keys[n]))
    else
      var iter := if n == 0 then 0 else n - 1;
      iter < |keys| && (IsSubSymbol(keys[iter], name) || (iter + 1 < |keys| && IsSubSymbol(name, keys[iter + 1])))
  }

  predicate Clash(keys: seq<string>, name: string, fixed: bool) {
    ClashAt(keys, UpperBound(keys, name), name, fixed)
  }

  /** Some key covers `name`, or `name` covers some key. */
  predicate Conflict(keys: seq<string>, name: string) {
    exists i :: 0 <= i < |keys| && (IsSubSymbol(keys[i], name) || IsSubSymbol(name, keys[i]))
  }

  /** The call for which the code as written overlooks a conflict: the first key, and it alone, is a
      proper sub-symbol of a name that sorts before every key. */
  predicate SkipsFirst(keys: seq<string>, name: string) {
    keys != [] && Less(name, keys[0]) && IsSubSymbol(name, keys[0]) && !(1 < |keys| && IsSubSymbol(name, keys[1]))
  }

  function Insert<V>(entries: seq<Entry<V>>, entry: Entry<V>): (r: seq<Entry<V>>)
  {
    var n := UpperBound(Keys(entries), entry.key);
    entries[..n] + [entry] + entries[n..]
  }

  datatype Added<V> = Added(entries: seq<Entry<V>>, ok: bool)

  function Add<V>(entries: seq<Entry<V>>, entry: Entry<V>, fixed: bool): Added<V> {
    if !ValidName(entry.key) || Clash(Keys(entries), entry.key, fixed) then Added(entries, false)
    else Added(Insert(entries, entry), true)
  }

  function Find<V>(entries: seq<Entry<V>>, name: string): Option<V> {
    var iter := FindLastLessOrEqual(Keys(entries), name);
    if iter < |entries| && IsSubSymbol(entries[iter].key, name) then Some(entries[iter].value) else None
  }

  /** The name a symbol of a package is stored under. */
  function FullName(package: string, symbol: string): string {
    if package == "" then symbol else package + "." + symbol
  }

  /** What AddFile visits, in order: the names of messages, enums, extensions and services, and after a
      message or an extension the extensions it brings. */
  datatype Decl = Symbol(name: string) | Extension(extendee: string, number: int)

  type ExtensionKey = (string, int)

  /** AddExtension: only a fully-qualified extendee is remembered, and only once with each number. */
  function WithExtension(extensions: set<ExtensionKey>, extendee: string, number: int): (set<ExtensionKey>, bool) {
    if extendee == "" || extendee[0] != '.' then (extensions, true)
    else if (extendee[1..], number) in extensions then (extensions, false)
    else (extensions + {(extendee[1..], number)}, true)
  }

  /** by_symbol_, and the keys of by_name_ and by_extension_. */
  datatype Index<V> = Index(symbols: seq<Entry<V>>, files: set<string>, extensions: set<ExtensionKey>)

  function DeclInMap<V>(ix: Index<V>, package: string, d: Decl, value: V, fixed: bool): (Index<V>, bool) {
    match d
    case Symbol(name) =>
      var added := Add(ix.symbols, Entry(FullName(package, name), value), fixed);
      (ix.(symbols := added.entries), added.ok)
    case Extension(extendee, number) =>
      var (extensions, ok) := WithExtension(ix.extensions, extendee, number);
      (ix.(extensions := extensions), ok)
  }

  /** One declaration after the other until one is refused; what went in before stays. */
  function DeclsInMap<V>(ix: Index<V>, package: string, decls: seq<Decl>, value: V, fixed: bool): (Index<V>, bool)
    decreases |decls|
  {
    if decls == [] then (ix, true)
    else
      var next := DeclInMap(ix, package, decls[0], value, fixed);
      if next.1 then DeclsInMap(next.0, package, decls[1..], value, fixed) else next
  }

  function FileInMap<V>(ix: Index<V>, file: string, package: string, decls: seq<Decl>, value: V, fixed: bool): (Index<V>, bool) {
    if file in ix.files then (ix, false)
    else DeclsInMap(ix.(files := ix.files + {file}), package, decls, value, fixed)
  }

  /** by_symbol_ and the operations on it. */
  class DescriptorIndex<Value> {
    var bySymbol: seq<Entry<Value>>
    var byName: set<string>
    var byExtension: set<ExtensionKey>

    function State(): Index<Value>
      reads this
    {
      Index(bySymbol, byName, byExtension)
    }

    constructor ()
      ensures State() == Index([], {}, {})
    {
      bySymbol, byName, byExtension := [], {}, {};
    }

    method AddSymbol(name: string, value: Value) returns (ok: bool)
      modifies this`bySymbol
      ensures Added(bySymbol, ok) == Add(old(bySymbol), Entry(name, value), false)
    {
      var valid := ValidateSymbolName(name);
      if !valid { return false; }
      var keys := Keys(bySymbol);
      var iter := FindLastLessOrEqual(keys, name);
      if iter == |keys| {
        bySymbol := bySymbol + [Entry(name, value)];
        return true;
      }
      if IsSubSymbol(keys[iter], name) { return false; }
      iter := iter + 1;
      if iter < |keys| && IsSubSymbol(name, keys[iter]) { return false; }
      bySymbol := Insert(bySymbol, Entry(name, value)); // the hint does not change where a map puts a key
      return true;
    }

    method AddExtension(extendee: string, number: int) returns (ok: bool)
      modifies this`byExtension
      ensures (byExtension, ok) == WithExtension(old(byExtension), extendee, number)
    {
      if extendee != "" && extendee[0] == '.' {
        if (extendee[1..], number) in byExtension {
          return false;
        }
        byExtension := byExtension + {(extendee[1..], number)};
      }
      return true;
    }

    method AddFile(file: string, package: string, decls: seq<Decl>, value: Value) returns (ok: bool)
      modifies this
      ensures (State(), ok) == FileInMap(old(State()), file, package, decls, value, false)
    {
      hide Add;
      if file in byName {
        return false;
      }
      byName := byName + {file};
      var path := package;
      if path != "" {
        path := path + ".";
      }
      ok := true;
      ghost var goal := DeclsInMap(State(), package, decls, value, false);
      var i := 0;
      while ok && i < |decls|
        invariant i <= |decls| && path == (if package == "" then "" else package + ".")
        invariant goal == if ok then DeclsInMap(State(), package, decls[i..], value, false) else (State(), false)
      {
        assert decls[i..][1..] == decls[i + 1..];
        match decls[i] {
          case Symbol(name) =>
            assert path + name == FullName(package, name);
            ok := AddSymbol(path + name, value);
          case Extension(extendee, number) =>
            ok := AddExtension(extendee, number);
        }
        i := i + 1;
      }
    }

    /** With the map invariant, the one probe finds the key that covers `name` if there is one. */
    method FindSymbol(name: string) returns (r: Option<Value>)
      ensures r == Find(bySymbol, name)
      ensures Ordered(Keys(bySymbol)) && PrefixFree(Keys(bySymbol)) ==>
                (r.None? ==> forall i :: 0 <= i < |bySymbol| ==> !IsSubSymbol(bySymbol[i].key, name))
                && forall i :: 0 <= i < |bySymbol| && IsSubSymbol(bySymbol[i].key, name) ==> r == Some(bySymbol[i].value)
    {
      var iter := FindLastLessOrEqual(Keys(bySymbol), name);
      r := if iter < |bySymbol| && IsSubSymbol(bySymbol[iter].key, name) then Some(bySymbol[iter].value) else None;
      if Ordered(Keys(bySymbol)) && PrefixFree(Keys(bySymbol)) {
        forall i | 0 <= i < |bySymbol| && IsSubSymbol(bySymbol[i].key, name)
          ensures r == Some(bySymbol[i].value)
        {
          OneProbe(Keys(bySymbol), name, i);
        }
      }
    }
  }

  // ---- The probe ----------------------------------------------------------------------------

  lemma {:induction false} UpperBoundSplits(keys: seq<string>, name: string)
    requires Sorted(keys)
    ensures forall i :: 0 <= i < UpperBound(keys, name) ==> !Less(name, keys[i])
    ensures forall i :: UpperBound(keys, name) <= i < |keys| ==> Less(name, keys[i])
  {
    if keys != [] {
      if Less(name, keys[0]) {
        forall i | 0 < i < |keys|
          ensures Less(name, keys[i])
        {
          LessIsTransitive(name, keys[0], keys[i]);
        }
      } else {
        UpperBoundSplits(keys[1..], name);
        assert forall i :: 0 < i < |keys| ==> keys[i] == keys[1..][i - 1];
      }
    }
  }

  lemma KeyAtMost(keys: seq<string>, i: nat, j: nat)
    requires Sorted(keys) && i <= j < |keys|
    ensures !Less(keys[j], keys[i])
  {
    LessIsTotal(keys[i], keys[j]);
  }

  /** The header's proof: if a key covers the name sought, the probe lands on it. */
  lemma OneProbe(keys: seq<string>, name: string, i: nat)
    requires Ordered(keys) && PrefixFree(keys)
    requires i < |keys| && IsSubSymbol(keys[i], name)
    ensures FindLastLessOrEqual(keys, name) == i
  {
    var n := UpperBound(keys, name);
    UpperBoundSplits(keys, name);
    PrefixIsNotGreater(keys[i], name);
    assert i < n;
    if i < n - 1 {
      KeyAtMost(keys, i, n - 1);
      BetweenIsSubSymbol(keys[i], keys[n - 1], name);
      assert false;
    }
  }

  /** The probe finds every key that covers a name, for every name, if and only if no key covers
      another. */
  lemma ProbeIsExactIff(keys: seq<string>)
    requires Ordered(keys)
    ensures PrefixFree(keys) <==>
            forall name: string, i: nat | i < |keys| && IsSubSymbol(keys[i], name) :: FindLastLessOrEqual(keys, name) == i
  {
    if PrefixFree(keys) {
      forall name: string, i: nat | i < |keys| && IsSubSymbol(keys[i], name)
        ensures FindLastLessOrEqual(keys, name) == i
      {
        OneProbe(keys, name, i);
      }
    } else if forall name: string, i: nat | i < |keys| && IsSubSymbol(keys[i], name) :: FindLastLessOrEqual(keys, name) == i {
      var i: nat, j: nat :| i < |keys| && j < |keys| && i != j && IsSubSymbol(keys[i], keys[j]);
      SelfCovered(keys[j]);
      assert FindLastLessOrEqual(keys, keys[j]) == i;
      assert FindLastLessOrEqual(keys, keys[j]) == j;
    }
  }

  // ---- Adding -------------------------------------------------------------------------------

  /** If the name covers a key, it covers the first key above it (unless it is that key). */
  lemma FirstAbove(keys: seq<string>, name: string, i: nat)
    requires Ordered(keys) && ValidName(name)
    requires i < |keys| && IsSubSymbol(name, keys[i]) && name != keys[i]
    ensures UpperBound(keys, name) <= i
    ensures IsSubSymbol(name, keys[UpperBound(keys, name)])
  {
    var n := UpperBound(keys, name);
    UpperBoundSplits(keys, name);
    PrefixIsNotGreater(name, keys[i]);
    LessIsTotal(name, keys[i]);
    KeyAtMost(keys, n, i);
    LessIsTotal(name, keys[n]);
    BetweenIsSubSymbol(name, keys[n], keys[i]);
  }

  lemma SelfCovered(name: string)
    ensures IsSubSymbol(name, name)
  {
  }

  /** A name one of the keys covers is caught by the first comparison, corrected or not. */
  lemma CoveredIsCaught(keys: seq<string>, name: string, i: nat, fixed: bool)
    requires Ordered(keys) && PrefixFree(keys)
    requires i < |keys| && IsSubSymbol(keys[i], name)
    ensures Clash(keys, name, fixed)
  {
    OneProbe(keys, name, i);
    UpperBoundSplits(keys, name);
    PrefixIsNotGreater(keys[i], name);
  }

  lemma ClashIsConflict(keys: seq<string>, name: string, fixed: bool)
    requires Clash(keys, name, fixed)
    ensures Conflict(keys, name)
  {
  }

  /** AddSymbol's two comparisons find a conflict exactly when there is one; as written, except for
      the call that skips the first key. */
  lemma ClashIff(keys: seq<string>, name: string, fixed: bool)
    requires Ordered(keys) && PrefixFree(keys) && ValidName(name)
    ensures Clash(keys, name, fixed) <==> Conflict(keys, name) && (fixed || !SkipsFirst(keys, name))
  {
    if Clash(keys, name, fixed) {
      ClashIsConflict(keys, name, fixed);
      if !fixed && SkipsFirst(keys, name) {
        NotCoveredFromAbove(keys, name);
      }
    } else if Conflict(keys, name) {
      var i: nat :| i < |keys| && (IsSubSymbol(keys[i], name) || IsSubSymbol(name, keys[i]));
      if IsSubSymbol(keys[i], name) {
        CoveredIsCaught(keys, name, i, fixed);
      } else {
        SelfCovered(name);
        FirstAbove(keys, name, i);
      }
    }
  }

  lemma NotCoveredFromAbove(keys: seq<string>, name: string)
    requires keys != [] && Less(name, keys[0])
    ensures UpperBound(keys, name) == 0 && !IsSubSymbol(keys[0], name)
  {
    if IsSubSymbol(keys[0], name) {
      PrefixIsNotGreater(keys[0], name);
    }
  }

  /** Inserting a name no key equals keeps the keys sorted, valid, and adds that name alone. */
  lemma InsertKeepsOrder<V>(entries: seq<Entry<V>>, entry: Entry<V>)
    requires Ordered(Keys(entries)) && ValidName(entry.key) && entry.key !in Keys(entries)
    ensures Ordered(Keys(Insert(entries, entry)))
  {
    var keys, after := Keys(entries), Keys(Insert(entries, entry));
    var n := UpperBound(keys, entry.key);
    UpperBoundSplits(keys, entry.key);
    assert |after| == |keys| + 1;
    assert after == keys[..n] + [entry.key] + keys[n..];
    forall i, j | 0 <= i < j < |after|
      ensures Less(after[i], after[j])
    {
      if i == n {
      } else if j == n {
        LessIsTotal(keys[i], entry.key);
      }
    }
  }

  lemma InsertedEntries<V>(entries: seq<Entry<V>>, entry: Entry<V>, e: Entry<V>)
    ensures e in Insert(entries, entry) <==> e in entries || e == entry
  {
    var n := UpperBound(Keys(entries), entry.key);
    assert entries == entries[..n] + entries[n..];
  }

  /** A key is added to a prefix-free index without spoiling it exactly when nothing conflicts. */
  lemma InsertIsPrefixFreeIff<V>(entries: seq<Entry<V>>, entry: Entry<V>)
    requires PrefixFree(Keys(entries))
    ensures PrefixFree(Keys(Insert(entries, entry))) <==> !Conflict(Keys(entries), entry.key)
  {
    var n := UpperBound(Keys(entries), entry.key);
    assert Keys(Insert(entries, entry)) == Keys(entries)[..n] + [entry.key] + Keys(entries)[n..];
    hide PrefixFree, Conflict, Insert, Keys, UpperBound;
    if Conflict(Keys(entries), entry.key) {
      ConflictSpoils(Keys(entries), n, entry.key);
    } else {
      NoConflictKeeps(Keys(entries), n, entry.key);
    }
  }

  lemma ConflictSpoils(keys: seq<string>, n: nat, name: string)
    requires n <= |keys| && Conflict(keys, name)
    ensures !PrefixFree(keys[..n] + [name] + keys[n..])
  {
    hide IsSubSymbol;
    var after := keys[..n] + [name] + keys[n..];
    var i: nat :| i < |keys| && (IsSubSymbol(keys[i], name) || IsSubSymbol(name, keys[i]));
    var j := if i < n then i else i + 1;
    assert after[j] == keys[i] && after[n] == name;
  }

  lemma NoConflictKeeps(keys: seq<string>, n: nat, name: string)
    requires n <= |keys| && PrefixFree(keys) && !Conflict(keys, name)
    ensures PrefixFree(keys[..n] + [name] + keys[n..])
  {
    hide IsSubSymbol;
    var after := keys[..n] + [name] + keys[n..];
    forall i, j | 0 <= i < |after| && 0 <= j < |after| && i != j
      ensures !IsSubSymbol(after[i], after[j])
    {
      assert i != n ==> after[i] == keys[if i < n then i else i - 1];
      assert j != n ==> after[j] == keys[if j < n then j else j - 1];
    }
  }

  /** A key that spoils the index once spoils it for good: keys are never removed. */
  lemma InsertKeepsSpoilt<V>(entries: seq<Entry<V>>, entry: Entry<V>)
    requires !PrefixFree(Keys(entries))
    ensures !PrefixFree(Keys(Insert(entries, entry)))
  {
    var keys, after := Keys(entries), Keys(Insert(entries, entry));
    var n := UpperBound(keys, entry.key);
    assert after == keys[..n] + [entry.key] + keys[n..];
    var i: nat, j: nat :| i < |keys| && j < |keys| && i != j && IsSubSymbol(keys[i], keys[j]);
    var i', j' := if i < n then i else i + 1, if j < n then j else j + 1;
    assert after[i'] == keys[i] && after[j'] == keys[j];
  }

  // ---- Runs of AddSymbol --------------------------------------------------------------------

  lemma EqualIsCaught(keys: seq<string>, name: string, fixed: bool)
    requires Sorted(keys) && name in keys
    ensures Clash(keys, name, fixed)
  {
    var i: nat :| i < |keys| && keys[i] == name;
    UpperBoundSplits(keys, name);
    LessIsTotal(name, name);
    if i + 1 < |keys| {
      assert Less(keys[i], keys[i + 1]);
    }
    assert UpperBound(keys, name) == i + 1;
  }

  /** Whatever is added, corrected or not, the keys stay sorted, distinct and valid. */
  lemma AddKeepsOrder<V>(entries: seq<Entry<V>>, entry: Entry<V>, fixed: bool)
    requires Ordered(Keys(entries))
    ensures Ordered(Keys(Add(entries, entry, fixed).entries))
  {
    if Add(entries, entry, fixed).ok {
      if entry.key in Keys(entries) {
        EqualIsCaught(Keys(entries), entry.key, fixed);
      }
      InsertKeepsOrder(entries, entry);
    }
  }

  /** The map invariant survives a call exactly when the call does not skip the first key, and then
      the call succeeds exactly when the name is valid and conflicts with nothing. */
  lemma AddKeepsPrefixFreeIff<V>(entries: seq<Entry<V>>, entry: Entry<V>, fixed: bool)
    requires Ordered(Keys(entries)) && PrefixFree(Keys(entries))
    ensures var skips := !fixed && ValidName(entry.key) && SkipsFirst(Keys(entries), entry.key);
            var after := Add(entries, entry, fixed);
            && (PrefixFree(Keys(after.entries)) <==> !skips)
            && (after.ok <==> skips || (ValidName(entry.key) && !Conflict(Keys(entries), entry.key)))
  {
    if ValidName(entry.key) {
      ClashIff(Keys(entries), entry.key, fixed);
      InsertIsPrefixFreeIff(entries, entry);
    }
  }

  function RunAdds<V>(entries: seq<Entry<V>>, adds: seq<Entry<V>>, fixed: bool): seq<Entry<V>>
    decreases |adds|
  {
    if adds == [] then entries else RunAdds(Add(entries, adds[0], fixed).entries, adds[1..], fixed)
  }

  /** No call of the run skips the first key. */
  predicate NeverSkips<V>(entries: seq<Entry<V>>, adds: seq<Entry<V>>)
    decreases |adds|
  {
    adds == [] ||
    (!(ValidName(adds[0].key) && SkipsFirst(Keys(entries), adds[0].key))
     && NeverSkips(Add(entries, adds[0], false).entries, adds[1..]))
  }

  lemma {:induction false} SpoiltForGood<V>(entries: seq<Entry<V>>, adds: seq<Entry<V>>, fixed: bool)
    requires !PrefixFree(Keys(entries))
    ensures !PrefixFree(Keys(RunAdds(entries, adds, fixed)))
    decreases |adds|
  {
    hide PrefixFree;
    if adds != [] {
      InsertKeepsSpoilt(entries, adds[0]);
      SpoiltForGood(Add(entries, adds[0], fixed).entries, adds[1..], fixed);
    }
  }

  /** Over every sequence of calls the keys stay ordered, and no key covers another at the end if
      and only if (the code being as written) no call skipped the first key. */
  lemma {:induction false} RunIsPrefixFreeIff<V>(entries: seq<Entry<V>>, adds: seq<Entry<V>>, fixed: bool)
    requires Ordered(Keys(entries)) && PrefixFree(Keys(entries))
    ensures Ordered(Keys(RunAdds(entries, adds, fixed)))
    ensures PrefixFree(Keys(RunAdds(entries, adds, fixed))) <==> fixed || NeverSkips(entries, adds)
    decreases |adds|
  {
    hide PrefixFree, Ordered, SkipsFirst, Clash;
    if adds != [] {
      var after := Add(entries, adds[0], fixed).entries;
      AddKeepsOrder(entries, adds[0], fixed);
      AddKeepsPrefixFreeIff(entries, adds[0], fixed);
      if PrefixFree(Keys(after)) {
        RunIsPrefixFreeIff(after, adds[1..], fixed);
      } else {
        SpoiltForGood(after, adds[1..], fixed);
        RunStaysOrdered(after, adds[1..], fixed);
      }
    }
  }

  lemma {:induction false} RunStaysOrdered<V>(entries: seq<Entry<V>>, adds: seq<Entry<V>>, fixed: bool)
    requires Ordered(Keys(entries))
    ensures Ordered(Keys(RunAdds(entries, adds, fixed)))
    decreases |adds|
  {
    hide Ordered, Clash;
    if adds != [] {
      AddKeepsOrder(entries, adds[0], fixed);
      RunStaysOrdered(Add(entries, adds[0], fixed).entries, adds[1..], fixed);
    }
  }

  /** Over every run from an empty index that never skips, Find answers with an entry exactly when
      its key covers the name, and there is at most one such entry. */
  lemma FindAfterRun<V>(adds: seq<Entry<V>>, fixed: bool, name: string, i: nat)
    requires fixed || NeverSkips([], adds)
    requires i < |RunAdds([], adds, fixed)|
    ensures var entries := RunAdds([], adds, fixed);
            IsSubSymbol(entries[i].key, name) <==>
            Find(entries, name) == Some(entries[i].value) && FindLastLessOrEqual(Keys(entries), name) == i
  {
    RunIsPrefixFreeIff<V>([], adds, fixed);
    var entries := RunAdds([], adds, fixed);
    if IsSubSymbol(entries[i].key, name) {
      OneProbe(Keys(entries), name, i);
    }
  }

  // ---- What AddFile leaves ------------------------------------------------------------------

  /** A symbol of the file, under its qualified name. */
  ghost predicate Declares<V>(package: string, decls: seq<Decl>, value: V, e: Entry<V>) {
    e.value == value
    && exists i :: 0 <= i < |decls| && decls[i].Symbol?
                   && e.key == if package == "" then decls[i].name else package + "." + decls[i].name
  }

  predicate DeclaresExtension(decls: seq<Decl>, x: ExtensionKey) {
    Extension("." + x.0, x.1) in decls
  }

  /** An accepted file adds its symbols under their qualified names, and its fully-qualified extensions. */
  lemma {:induction false} AcceptedFileAdds<V>(ix: Index<V>, package: string, decls: seq<Decl>, value: V, fixed: bool)
    requires DeclsInMap(ix, package, decls, value, fixed).1
    ensures var end := DeclsInMap(ix, package, decls, value, fixed).0;
            && (forall e :: e in end.symbols <==> e in ix.symbols || Declares(package, decls, value, e))
            && (forall x :: x in end.extensions <==> x in ix.extensions || DeclaresExtension(decls, x))
            && end.files == ix.files
    decreases |decls|
  {
    hide Clash, ValidName;
    if decls != [] {
      var next := DeclInMap(ix, package, decls[0], value, fixed).0;
      AcceptedFileAdds(next, package, decls[1..], value, fixed);
      forall e
        ensures Declares(package, decls, value, e) <==> Declares(package, decls[..1], value, e) || Declares(package, decls[1..], value, e)
      {
        DeclaresSplits(package, decls, value, e);
      }
      assert decls == decls[..1] + decls[1..];
      forall e
        ensures e in next.symbols <==> e in ix.symbols || Declares(package, decls[..1], value, e)
      {
        FirstDeclaration(ix, package, decls, value, fixed, e);
      }
      FirstExtension(ix, package, decls, value, fixed);
      hide Declares, DeclInMap;
    }
  }

  lemma DeclaresSplits<V>(package: string, decls: seq<Decl>, value: V, e: Entry<V>)
    requires decls != []
    ensures Declares(package, decls, value, e) <==> Declares(package, decls[..1], value, e) || Declares(package, decls[1..], value, e)
  {
    if Declares(package, decls[1..], value, e) {
      var i :| 0 <= i < |decls[1..]| && decls[1..][i].Symbol?
               && e.key == if package == "" then decls[1..][i].name else package + "." + decls[1..][i].name;
      assert decls[i + 1] == decls[1..][i];
    }
    if Declares(package, decls, value, e) && !Declares(package, decls[..1], value, e) {
      var i :| 0 <= i < |decls| && decls[i].Symbol?
               && e.key == if package == "" then decls[i].name else package + "." + decls[i].name;
      assert decls[..1][0] == decls[0];
      assert i > 0;
      assert decls[1..][i - 1] == decls[i];
    }
  }

  lemma FirstDeclaration<V>(ix: Index<V>, package: string, decls: seq<Decl>, value: V, fixed: bool, e: Entry<V>)
    requires decls != [] && DeclInMap(ix, package, decls[0], value, fixed).1
    ensures e in DeclInMap(ix, package, decls[0], value, fixed).0.symbols <==>
            e in ix.symbols || Declares(package, decls[..1], value, e)
  {
    hide Clash, ValidName, Insert;
    assert decls[..1] == [decls[0]];
    if decls[0].Symbol? {
      InsertedEntries(ix.symbols, Entry(FullName(package, decls[0].name), value), e);
      assert e == Entry(FullName(package, decls[0].name), value) ==> [decls[0]][0].Symbol?;
    }
  }

  lemma FirstExtension<V>(ix: Index<V>, package: string, decls: seq<Decl>, value: V, fixed: bool)
    requires decls != [] && DeclInMap(ix, package, decls[0], value, fixed).1
    ensures forall x :: x in DeclInMap(ix, package, decls[0], value, fixed).0.extensions <==>
              x in ix.extensions || decls[0] == Extension("." + x.0, x.1)
    ensures DeclInMap(ix, package, decls[0], value, fixed).0.files == ix.files
  {
    hide Add;
    if decls[0].Extension? && decls[0].extendee != "" && decls[0].extendee[0] == '.' {
      assert decls[0].extendee == "." + decls[0].extendee[1..];
      forall x: ExtensionKey
        ensures decls[0].extendee == "." + x.0 <==> x.0 == decls[0].extendee[1..]
      {
        assert ("." + x.0)[1..] == x.0;
      }
    }
  }

  /** A lookup after an accepted file, while no key covers another: a symbol of the file that covers the name
      answers with the file, and otherwise the answer is what it was. */
  lemma FindAfterFile<V>(ix: Index<V>, file: string, package: string, decls: seq<Decl>, value: V, fixed: bool, name: string)
    requires Ordered(Keys(ix.symbols)) && FileInMap(ix, file, package, decls, value, fixed).1
    requires PrefixFree(Keys(FileInMap(ix, file, package, decls, value, fixed).0.symbols))
    ensures var end := FileInMap(ix, file, package, decls, value, fixed).0;
            && file !in ix.files && end.files == ix.files + {file}
            && Find(end.symbols, name) ==
               if exists e :: Declares(package, decls, value, e) && IsSubSymbol(e.key, name) then Some(value)
               else Find(ix.symbols, name)
  {
    var noted := ix.(files := ix.files + {file});
    var end := DeclsInMap(noted, package, decls, value, fixed).0;
    AcceptedFileAdds(noted, package, decls, value, fixed);
    DeclsKeepOrder(noted, package, decls, value, fixed);
    PartOfPrefixFree(ix.symbols, end.symbols);
    hide DeclsInMap, PrefixFree, Ordered, Find, IsSubSymbol;
    FindIsCover(end.symbols, name);
    FindIsCover(ix.symbols, name);
    if e :| Declares(package, decls, value, e) && IsSubSymbol(e.key, name) {
      assert e in end.symbols && e.value == value;
    } else if Find(end.symbols, name).Some? {
      var e :| e in end.symbols && IsSubSymbol(e.key, name);
      assert e in ix.symbols;
    }
  }

  /** The answer of a lookup is the value of the one entry that covers the name. */
  lemma FindIsCover<V>(entries: seq<Entry<V>>, name: string)
    requires Ordered(Keys(entries)) && PrefixFree(Keys(entries))
    ensures forall e :: e in entries && IsSubSymbol(e.key, name) ==> Find(entries, name) == Some(e.value)
    ensures Find(entries, name).Some? ==> exists e :: e in entries && IsSubSymbol(e.key, name)
  {
    forall e | e in entries && IsSubSymbol(e.key, name)
      ensures Find(entries, name) == Some(e.value)
    {
      var i :| 0 <= i < |entries| && entries[i] == e;
      OneProbe(Keys(entries), name, i);
    }
    if Find(entries, name).Some? {
      assert entries[FindLastLessOrEqual(Keys(entries), name)] in entries;
    }
  }

  lemma {:induction false} DeclsKeepOrder<V>(ix: Index<V>, package: string, decls: seq<Decl>, value: V, fixed: bool)
    requires Ordered(Keys(ix.symbols))
    ensures Ordered(Keys(DeclsInMap(ix, package, decls, value, fixed).0.symbols))
    decreases |decls|
  {
    hide Ordered, Clash;
    if decls != [] {
      if decls[0].Symbol? {
        AddKeepsOrder(ix.symbols, Entry(FullName(package, decls[0].name), value), fixed);
      }
      DeclsKeepOrder(DeclInMap(ix, package, decls[0], value, fixed).0, package, decls[1..], value, fixed);
    }
  }

  /** Ordered entries all of which are in a prefix-free index are prefix-free. */
  lemma PartOfPrefixFree<V>(part: seq<Entry<V>>, m: seq<Entry<V>>)
    requires Sorted(Keys(part)) && PrefixFree(Keys(m)) && forall e :: e in part ==> e in m
    ensures PrefixFree(Keys(part))
  {
    var keys := Keys(part);
    forall i, j | 0 <= i < |keys| && 0 <= j < |keys| && i != j
      ensures !IsSubSymbol(keys[i], keys[j])
    {
      assert part[i] in part && part[j] in part;
      var i' :| 0 <= i' < |m| && m[i'] == part[i];
      var j' :| 0 <= j' < |m| && m[j'] == part[j];
      LessIsTotal(keys[i], keys[j]);
      assert i < j ==> Less(keys[i], keys[j]);
      assert j < i ==> Less(keys[j], keys[i]);
      LessIsTotal(keys[i], keys[i]);
      assert i' != j';
      assert !IsSubSymbol(Keys(m)[i'], Keys(m)[j']);
    }
  }

  /** A file that is refused leaves what it declared before the declaration that was refused. */
  lemma {:induction false} RefusedFileKeeps<V>(ix: Index<V>, package: string, decls: seq<Decl>, value: V, fixed: bool)
    requires !DeclsInMap(ix, package, decls, value, fixed).1
    ensures exists k :: 0 <= k < |decls|
              && DeclsInMap(ix, package, decls[..k], value, fixed) == (DeclsInMap(ix, package, decls, value, fixed).0, true)
              && !DeclInMap(DeclsInMap(ix, package, decls, value, fixed).0, package, decls[k], value, fixed).1
    decreases |decls|
  {
    hide Clash, ValidName, Insert;
    var next := DeclInMap(ix, package, decls[0], value, fixed);
    if next.1 {
      RefusedFileKeeps(next.0, package, decls[1..], value, fixed);
      var k :| 0 <= k < |decls[1..]|
               && DeclsInMap(next.0, package, decls[1..][..k], value, fixed)
                  == (DeclsInMap(next.0, package, decls[1..], value, fixed).0, true)
               && !DeclInMap(DeclsInMap(next.0, package, decls[1..], value, fixed).0, package, decls[1..][k], value, fixed).1;
      assert decls[..k + 1][0] == decls[0] && decls[..k + 1][1..] == decls[1..][..k] && decls[1..][k] == decls[k + 1];
      hide DeclInMap;
      assert DeclsInMap(ix, package, decls[..k + 1], value, fixed) == (DeclsInMap(ix, package, decls, value, fixed).0, true);
    } else {
      assert decls[..0] == [] && next.0 == ix;
      assert DeclsInMap(ix, package, decls[..0], value, fixed) == (ix, true);
    }
  }

  /** After declarations that were all accepted, an extension is refused exactly when it is fully qualified and
      was remembered before or declared among them. */
  lemma ExtensionRefusedIff<V>(ix: Index<V>, package: string, decls: seq<Decl>, value: V, fixed: bool, extendee: string, number: int)
    requires DeclsInMap(ix, package, decls, value, fixed).1
    ensures var d, end := Extension(extendee, number), DeclsInMap(ix, package, decls, value, fixed).0;
            !DeclInMap(end, package, d, value, fixed).1 <==>
            extendee != "" && extendee[0] == '.' && (d in decls || (extendee[1..], number) in ix.extensions)
  {
    AcceptedFileAdds(ix, package, decls, value, fixed);
    hide DeclsInMap;
    if extendee != "" && extendee[0] == '.' {
      assert extendee == "." + extendee[1..];
    }
  }

  /** "foo.bar" and then "foo": both are accepted, "foo" then covers "foo.bar", and a lookup of
      "foo.c" finds nothing although "foo" covers it. */
  lemma ParentAddedSecond()
    ensures var entries := RunAdds([], [Entry("foo.bar", 1), Entry("foo", 2)], false);
            && Keys(entries) == ["foo", "foo.bar"]
            && Find(entries, "foo.c").None? && IsSubSymbol("foo", "foo.c")
    ensures var entries := RunAdds([], [Entry("foo.bar", 1), Entry("foo", 2)], true);
            Keys(entries) == ["foo.bar"]
  {
    var adds := [Entry("foo.bar", 1), Entry("foo", 2)];
    var one := [Entry("foo.bar", 1)];
    var two := [Entry("foo", 2), Entry("foo.bar", 1)];
    FooFacts();
    hide Less, ValidName, IsSubSymbol;
    assert Insert([], adds[0]) == one;
    assert Keys(one) == ["foo.bar"] && Keys(two) == ["foo", "foo.bar"];
    assert UpperBound(["foo.bar"], "foo") == 0;
    assert Insert(one, adds[1]) == two;
    assert adds[1..] == [adds[1]] && adds[1..][1..] == [];
    assert RunAdds(one, adds[1..], false) == two && RunAdds(one, adds[1..], true) == one;
    assert ["foo", "foo.bar"][1..] == ["foo.bar"];
    assert UpperBound(["foo", "foo.bar"], "foo.c") == 2;
  }

  lemma FooFacts()
    ensures ValidName("foo.bar") && ValidName("foo")
    ensures Less("foo", "foo.bar") && !Less("foo.c", "foo") && !Less("foo.c", "foo.bar")
    ensures IsSubSymbol("foo", "foo.bar") && IsSubSymbol("foo", "foo.c")
    ensures !IsSubSymbol("foo.bar", "foo") && !IsSubSymbol("foo.bar", "foo.c")
  {
    assert "foo.bar" == "foo" + ".bar" && "foo.c" == "foo" + ".c";
    LessAfterPrefix("foo", ".bar");
    LessAfterPrefix("foo", ".c");
    LessIsTotal("foo", "foo.c");
    assert Less("foo.bar", "foo.c");
    LessIsTotal("foo.bar", "foo.c");
  }

  lemma {:induction false} LessAfterPrefix(a: string, b: string)
    requires b != ""
    ensures Less(a, a + b)
    decreases |a|
  {
    if a != "" {
      assert (a + b)[1..] == a[1..] + b;
      LessAfterPrefix(a[1..], b);
    }
  }
}
