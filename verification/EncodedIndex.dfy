/**
 * Adding files to the two-tier index and looking symbols up, compared with one sorted map: exactly which
 * declarations keep the two alike, with the comparisons as written and as corrected, and that calls whose
 * declarations do are answered alike.
 */
module EncodedIndex {
  import opened Options
  import opened SymbolOrder
  import opened SymbolIndex
  import opened SymbolTiers

  /** all_values_, by_symbol_ and by_symbol_flat_; of the file names and the extensions, which are only
      ever asked for membership, both tiers together. */
  datatype Tiers<V> = Tiers(all: seq<EncodedEntry<V>>, recent: seq<SymbolEntry>, flat: seq<SymbolEntry>,
                            files: set<string>, extensions: set<ExtensionKey>)

  predicate Stored<V>(t: Tiers<V>) { InRange(t.all, t.recent) && InRange(t.all, t.flat) }

  ghost predicate Valid<V>(t: Tiers<V>) {
    && Stored(t)
    && Ordered(Names(t.all, t.recent)) && Ordered(Names(t.all, t.flat))
    && Disjoint(t.all, t.recent, t.flat)
  }

  /** std::set::insert: nothing happens if the set holds an equivalent entry. */
  function InsertSymbol<V>(all: seq<EncodedEntry<V>>, s: seq<SymbolEntry>, e: SymbolEntry): (r: seq<SymbolEntry>)
    requires InRange(all, s) && e.offset < |all|
    ensures InRange(all, r)
  {
    var n := UpperBoundBy(all, s, KeyOf(all, e));
    if 0 < n && !SymbolLess(KeyOf(all, s[n - 1]), KeyOf(all, e)) then s else s[..n] + [e] + s[n..]
  }

  /** CheckForMutualSubsymbols in one tier. */
  predicate TierClash<V>(all: seq<EncodedEntry<V>>, s: seq<SymbolEntry>, key: Key, fixed: bool)
    requires InRange(all, s)
  {
    ClashAt(Names(all, s), UpperBoundBy(all, s, key), AsString(key), fixed)
  }

  /** AddSymbol of the file last added. */
  function AddTo<V>(t: Tiers<V>, symbol: string, fixed: bool): (Tiers<V>, bool)
    requires Stored(t) && t.all != []
  {
    var e := SymbolEntry(|t.all| - 1, symbol);
    var key := KeyOf(t.all, e);
    if !ValidName(symbol) || TierClash(t.all, t.recent, key, fixed) || TierClash(t.all, t.flat, key, fixed)
    then (t, false)
    else (t.(recent := InsertSymbol(t.all, t.recent, e)), true)
  }

  function Flattened<V>(t: Tiers<V>): Tiers<V>
    requires Stored(t)
  {
    t.(recent := [], flat := Merge(t.all, t.recent, t.flat))
  }

  /** FindSymbolOnlyFlat */
  function FindFlat<V>(all: seq<EncodedEntry<V>>, flat: seq<SymbolEntry>, name: string): Option<V>
    requires InRange(all, flat)
  {
    var n := UpperBoundBy(all, flat, Text(name));
    var iter := if n == 0 then 0 else n - 1;
    if iter < |flat| && IsSubSymbol(NameOf(all, flat[iter]), name) then Some(all[flat[iter].offset].value) else None
  }

  function DeclInTiers<V>(t: Tiers<V>, d: Decl, fixed: bool): (r: (Tiers<V>, bool))
    requires Stored(t) && t.all != []
    ensures Stored(r.0) && r.0.all == t.all
  {
    match d
    case Symbol(name) => AddTo(t, name, fixed)
    case Extension(extendee, number) =>
      var (extensions, ok) := WithExtension(t.extensions, extendee, number);
      (t.(extensions := extensions), ok)
  }

  function DeclsInTiers<V>(t: Tiers<V>, decls: seq<Decl>, fixed: bool): (r: (Tiers<V>, bool))
    requires Stored(t) && t.all != []
    ensures Stored(r.0)
    decreases |decls|
  {
    if decls == [] then (t, true)
    else
      var next := DeclInTiers(t, decls[0], fixed);
      if next.1 then DeclsInTiers(next.0, decls[1..], fixed) else next
  }

  function FileInTiers<V>(t: Tiers<V>, file: string, package: string, decls: seq<Decl>, value: V, fixed: bool): (r: (Tiers<V>, bool))
    requires Stored(t)
    ensures Stored(r.0)
  {
    if !ValidName(package) then (t.(all := t.all + [EncodedEntry(value, "")]), false)
    else
      var pushed := t.(all := t.all + [EncodedEntry(value, package)]);
      if file in t.files then (pushed, false)
      else DeclsInTiers(pushed.(files := t.files + {file}), decls, fixed)
  }

  class DescriptorIndex<Value> {
    var allValues: seq<EncodedEntry<Value>>
    var bySymbol: seq<SymbolEntry>
    var bySymbolFlat: seq<SymbolEntry>
    var byName: set<string>
    var byExtension: set<ExtensionKey>

    function State(): Tiers<Value>
      reads this
    {
      Tiers(allValues, bySymbol, bySymbolFlat, byName, byExtension)
    }

    constructor ()
      ensures State() == Tiers([], [], [], {}, {})
    {
      allValues, bySymbol, bySymbolFlat, byName, byExtension := [], [], [], {}, {};
    }

    /** Whether the names at `iter` and after it leave room for `name`. */
    static method CheckForMutualSubsymbols(name: string, names: seq<string>, above: nat) returns (ok: bool)
      requires above <= |names|
      ensures ok <==> !ClashAt(names, above, name, false)
    {
      var iter := if above == 0 then 0 else above - 1;
      if iter != |names| {
        if IsSubSymbol(names[iter], name) { return false; }
        iter := iter + 1;
        if iter != |names| && IsSubSymbol(name, names[iter]) { return false; }
      }
      return true;
    }

    method AddSymbol(symbol: string) returns (ok: bool)
      requires Stored(State()) && allValues != []
      modifies this`bySymbol
      ensures (State(), ok) == AddTo(old(State()), symbol, false)
    {
      hide ClashAt, ValidName, SymbolLess, UpperBoundBy;
      var entry := SymbolEntry(|allValues| - 1, symbol);
      var key := KeyOf(allValues, entry);
      var valid := ValidateSymbolName(symbol);
      if !valid { return false; }
      var above := UpperBoundBy(allValues, bySymbol, key);
      var fits := CheckForMutualSubsymbols(AsString(key), Names(allValues, bySymbol), above);
      if !fits { return false; }
      var flatAbove := UpperBoundBy(allValues, bySymbolFlat, key);
      fits := CheckForMutualSubsymbols(AsString(key), Names(allValues, bySymbolFlat), flatAbove);
      if !fits { return false; }
      bySymbol := InsertSymbol(allValues, bySymbol, entry); // the set places the entry, whatever the hint
      return true;
    }

    method AddExtension(extendee: string, number: int) returns (ok: bool)
      modifies this`byExtension
      ensures (byExtension, ok) == WithExtension(old(byExtension), extendee, number)
    {
      if extendee != "" && extendee[0] == '.' {
        if (extendee[1..], number) in byExtension {
          return false;
        }
        byExtension := byExtension + {(extendee[1..], number)};
      }
      return true;
    }

    /** AddFile: the value is recorded first, then the name, then what the file declares until something
        is refused. */
    method AddFile(file: string, package: string, decls: seq<Decl>, value: Value) returns (ok: bool)
      requires Stored(State())
      modifies this`allValues, this`bySymbol, this`byName, this`byExtension
      ensures (State(), ok) == FileInTiers(old(State()), file, package, decls, value, false)
    {
      hide AddTo, WithExtension;
      allValues := allValues + [EncodedEntry(value, "")];
      ok := ValidateSymbolName(package);
      if !ok { return; }
      allValues := allValues[..|allValues| - 1] + [EncodedEntry(value, package)];
      assert allValues == old(allValues) + [EncodedEntry(value, package)];
      if file in byName {
        return false;
      }
      byName := byName + {file};
      ghost var goal := DeclsInTiers(State(), decls, false);
      var i := 0;
      while ok && i < |decls|
        invariant i <= |decls| && Stored(State()) && allValues == old(allValues) + [EncodedEntry(value, package)]
        invariant goal == if ok then DeclsInTiers(State(), decls[i..], false) else (State(), false)
      {
        assert decls[i..][1..] == decls[i + 1..];
        ghost var next := DeclInTiers(State(), decls[i], false);
        match decls[i] {
          case Symbol(name) => ok := AddSymbol(name);
          case Extension(extendee, number) => ok := AddExtension(extendee, number);
        }
        assert (State(), ok) == next;
        i := i + 1;
      }
    }

    method EnsureFlat()
      requires Stored(State())
      modifies this`bySymbol, this`bySymbolFlat
      ensures State() == Flattened(old(State()))
    {
      if bySymbol != [] {
        bySymbolFlat := Merge(allValues, bySymbol, bySymbolFlat);
        bySymbol := [];
      }
    }

    method FindSymbol(name: string) returns (r: Option<Value>)
      requires Stored(State())
      modifies this`bySymbol, this`bySymbolFlat
      ensures State() == Flattened(old(State())) && Stored(State())
      ensures r == FindFlat(allValues, bySymbolFlat, name)
    {
      hide UpperBoundBy, Merge, IsSubSymbol;
      EnsureFlat();
      var above := UpperBoundBy(allValues, bySymbolFlat, Text(name));
      var iter := if above == 0 then 0 else above - 1;
      if iter < |bySymbolFlat| && IsSubSymbol(AsString(KeyOf(allValues, bySymbolFlat[iter])), name) {
        r := Some(allValues[bySymbolFlat[iter].offset].value);
      } else {
        r := None;
      }
    }
  }

  // ---- One map ------------------------------------------------------------------------------

  /** The sorted map holds what the two tiers hold together, and no key covers another. */
  ghost predicate Refines<V>(t: Tiers<V>, ix: Index<V>) {
    && Valid(t) && Ordered(Keys(ix.symbols)) && PrefixFree(Keys(ix.symbols))
    && (forall e :: e in ix.symbols ==> e in Named(t.all, t.recent) || e in Named(t.all, t.flat))
    && (forall e :: e in Named(t.all, t.recent) ==> e in ix.symbols)
    && (forall e :: e in Named(t.all, t.flat) ==> e in ix.symbols)
    && t.files == ix.files && t.extensions == ix.extensions
  }

  lemma KeyOfMember<V>(m: seq<Entry<V>>, key: string)
    ensures key in Keys(m) <==> exists e :: e in m && e.key == key
  {
    if key in Keys(m) {
      var i :| 0 <= i < |m| && Keys(m)[i] == key;
      assert m[i] in m;
    } else {
      forall e | e in m
        ensures e.key != key
      {
        var i :| 0 <= i < |m| && m[i] == e;
        assert Keys(m)[i] == e.key;
      }
    }
  }

  ghost predicate ConflictWith(key: string, name: string) {
    IsSubSymbol(key, name) || IsSubSymbol(name, key)
  }

  lemma ConflictIsMember<V>(m: seq<Entry<V>>, name: string)
    ensures Conflict(Keys(m), name) <==> exists e :: e in m && ConflictWith(e.key, name)
  {
    if Conflict(Keys(m), name) {
      var i: nat :| i < |m| && (IsSubSymbol(Keys(m)[i], name) || IsSubSymbol(name, Keys(m)[i]));
      assert m[i] in m && ConflictWith(m[i].key, name);
    }
    if e :| e in m && ConflictWith(e.key, name) {
      var i :| 0 <= i < |m| && m[i] == e;
      assert Keys(m)[i] == e.key;
    }
  }

  lemma ConflictSplits<V>(t: Tiers<V>, ix: Index<V>, name: string)
    requires Refines(t, ix)
    ensures Conflict(Keys(ix.symbols), name) <==>
            Conflict(Names(t.all, t.recent), name) || Conflict(Names(t.all, t.flat), name)
  {
    ConflictIsMember(ix.symbols, name);
    ConflictIsMember(Named(t.all, t.recent), name);
    ConflictIsMember(Named(t.all, t.flat), name);
  }

  lemma TiersArePrefixFree<V>(t: Tiers<V>, ix: Index<V>)
    requires Refines(t, ix)
    ensures PrefixFree(Names(t.all, t.recent)) && PrefixFree(Names(t.all, t.flat))
  {
    PartOfPrefixFree(Named(t.all, t.recent), ix.symbols);
    PartOfPrefixFree(Named(t.all, t.flat), ix.symbols);
  }

  lemma ValidFullName(package: string, symbol: string)
    requires ValidName(package)
    ensures ValidName(FullName(package, symbol)) <==> ValidName(symbol)
  {
    var name := FullName(package, symbol);
    var shift := |name| - |symbol|;
    assert forall i :: 0 <= i < |symbol| ==> name[i + shift] == symbol[i];
    if ValidName(name) {
      forall i | 0 <= i < |symbol|
        ensures ValidChar(symbol[i])
      {
        assert ValidChar(name[i + shift]);
      }
    }
  }

  lemma NamedMembers<V>(all: seq<EncodedEntry<V>>, s: seq<SymbolEntry>, x: Entry<V>)
    requires InRange(all, s)
    ensures x in Named(all, s) <==> exists e :: e in s && NamedEntry(all, e) == x
  {
    if x in Named(all, s) {
      var i :| 0 <= i < |s| && Named(all, s)[i] == x;
      assert s[i] in s;
    }
    if e :| e in s && NamedEntry(all, e) == x {
      var i :| 0 <= i < |s| && s[i] == e;
      assert Named(all, s)[i] == x;
    }
  }

  // ---- What one tier decides ----------------------------------------------------------------

  /** The conflict a tier overlooks: as written the first key alone, when every key sorts above the name;
      and behind a name the comparator confuses with the one added, all but the very next. */
  predicate Misses<V>(all: seq<EncodedEntry<V>>, s: seq<SymbolEntry>, key: Key, fixed: bool)
    requires InRange(all, s)
  {
    var keys, name := Names(all, s), AsString(key);
    if PassesOver(all, s, key) then
      var n := UpperBound(keys, name);
      !(n + 1 < |keys| && IsSubSymbol(name, keys[n + 1]))
    else !fixed && SkipsFirst(keys, name)
  }

  lemma {:induction false} TierClashIff<V>(all: seq<EncodedEntry<V>>, s: seq<SymbolEntry>, key: Key, fixed: bool)
    requires InRange(all, s) && Ordered(Names(all, s)) && PrefixFree(Names(all, s)) && ValidName(AsString(key))
    ensures TierClash(all, s, key, fixed) <==> Conflict(Names(all, s), AsString(key)) && !Misses(all, s, key, fixed)
  {
    SearchesFullNames(all, s, key);
    if PassesOver(all, s, key) {
      ConfusedIsCovered(key, KeyOf(all, s[UpperBound(Names(all, s), AsString(key))]));
    } else {
      hide Ordered, PrefixFree, SkipsFirst;
      ClashIff(Names(all, s), AsString(key), fixed);
    }
  }

  /** Without a conflict the comparator confuses nothing in the tier. */
  lemma NothingConfused<V>(all: seq<EncodedEntry<V>>, s: seq<SymbolEntry>, key: Key, e: SymbolEntry)
    requires InRange(all, s) && !Conflict(Names(all, s), AsString(key)) && e in s
    ensures !Confusable(key, KeyOf(all, e)) && !Confusable(KeyOf(all, e), key)
  {
    var i :| 0 <= i < |s| && s[i] == e;
    assert Names(all, s)[i] == AsString(KeyOf(all, e));
    if Confusable(key, KeyOf(all, e)) {
      ConfusedIsCovered(key, KeyOf(all, e));
    } else if Confusable(KeyOf(all, e), key) {
      ConfusedIsCovered(KeyOf(all, e), key);
    }
  }

  lemma PlaceByName<V>(all: seq<EncodedEntry<V>>, s: seq<SymbolEntry>, e: SymbolEntry)
    requires InRange(all, s) && e.offset < |all| && Sorted(Names(all, s)) && !Conflict(Names(all, s), NameOf(all, e))
    ensures var n := UpperBound(Names(all, s), NameOf(all, e));
            UpperBoundBy(all, s, KeyOf(all, e)) == n && (0 < n ==> SymbolLess(KeyOf(all, s[n - 1]), KeyOf(all, e)))
  {
    var key, keys := KeyOf(all, e), Names(all, s);
    var n := UpperBound(keys, NameOf(all, e));
    SearchesFullNames(all, s, key);
    if n < |s| {
      NothingConfused(all, s, key, s[n]);
    }
    hide SymbolLess, Less, UpperBoundBy, Confusable, UpperBound;
    if 0 < n {
      UpperBoundSplits(keys, NameOf(all, e));
      NothingConfused(all, s, key, s[n - 1]);
      SymbolLessIff(KeyOf(all, s[n - 1]), key);
      LessIsTotal(keys[n - 1], NameOf(all, e));
      assert !IsSubSymbol(keys[n - 1], NameOf(all, e));
    }
  }

  /** So an entry without a conflict goes where its full name belongs. */
  lemma InsertIsInsert<V>(all: seq<EncodedEntry<V>>, s: seq<SymbolEntry>, e: SymbolEntry)
    requires InRange(all, s) && e.offset < |all| && Sorted(Names(all, s)) && !Conflict(Names(all, s), NameOf(all, e))
    ensures Named(all, InsertSymbol(all, s, e)) == Insert(Named(all, s), NamedEntry(all, e))
  {
    PlaceByName(all, s, e);
    hide SymbolLess, Less, UpperBoundBy, UpperBound, Sorted, Conflict;
    NamedSplice(all, s, UpperBound(Names(all, s), NameOf(all, e)), e);
  }

  lemma NamedSplice<V>(all: seq<EncodedEntry<V>>, s: seq<SymbolEntry>, n: nat, e: SymbolEntry)
    requires InRange(all, s) && e.offset < |all| && n <= |s|
    ensures InRange(all, s[..n] + [e] + s[n..])
    ensures Named(all, s[..n] + [e] + s[n..]) == Named(all, s)[..n] + [NamedEntry(all, e)] + Named(all, s)[n..]
  {
    hide NamedEntry;
  }

  lemma NotHeld<V>(all: seq<EncodedEntry<V>>, s: seq<SymbolEntry>, name: string)
    requires InRange(all, s) && !Conflict(Names(all, s), name)
    ensures name !in Names(all, s)
  {
    SelfCovered(name);
    forall i | 0 <= i < |s|
      ensures Names(all, s)[i] != name
    {
    }
  }

  /** A name that conflicts with neither tier can go into the recent one. */
  lemma RecentGrows<V>(t: Tiers<V>, e: SymbolEntry)
    requires Valid(t) && e.offset < |t.all| && ValidName(NameOf(t.all, e))
    requires !Conflict(Names(t.all, t.recent), NameOf(t.all, e)) && !Conflict(Names(t.all, t.flat), NameOf(t.all, e))
    ensures Valid(t.(recent := InsertSymbol(t.all, t.recent, e)))
  {
    InsertIsInsert(t.all, t.recent, e);
    NotHeld(t.all, t.recent, NameOf(t.all, e));
    NotHeld(t.all, t.flat, NameOf(t.all, e));
    hide ValidName, Less, UpperBound, Conflict;
    var after := InsertSymbol(t.all, t.recent, e);
    InsertKeepsOrder(Named(t.all, t.recent), NamedEntry(t.all, e));
    forall d, f | d in after && f in t.flat
      ensures NameOf(t.all, d) != NameOf(t.all, f)
    {
      NamedMembers(t.all, t.flat, NamedEntry(t.all, f));
      KeyOfMember(Named(t.all, t.flat), NameOf(t.all, f));
      InsertedSymbols(t.all, t.recent, e, d);
    }
  }

  lemma InsertedSymbols<V>(all: seq<EncodedEntry<V>>, s: seq<SymbolEntry>, e: SymbolEntry, d: SymbolEntry)
    requires InRange(all, s) && e.offset < |all| && d in InsertSymbol(all, s, e)
    ensures d in s || d == e
  {
  }

  // ---- What both tiers decide ---------------------------------------------------------------

  /** Exactly when the two tiers and the one map decide alike on a valid symbol: when nothing conflicts, or
      the map's comparisons miss the conflict just if each tier's miss what conflicts there. */
  lemma {:induction false} DecideAlikeIff<V>(t: Tiers<V>, ix: Index<V>, symbol: string, fixed: bool)
    requires Refines(t, ix) && t.all != [] && ValidName(t.all[|t.all| - 1].package) && ValidName(symbol)
    ensures var e := SymbolEntry(|t.all| - 1, symbol);
            var key, name := KeyOf(t.all, e), NameOf(t.all, e);
            AddTo(t, symbol, fixed).1 == Add(ix.symbols, NamedEntry(t.all, e), fixed).ok <==>
            (Conflict(Keys(ix.symbols), name) ==>
               ((!fixed && SkipsFirst(Keys(ix.symbols), name)) <==>
                (&& (Conflict(Names(t.all, t.recent), name) ==> Misses(t.all, t.recent, key, fixed))
                 && (Conflict(Names(t.all, t.flat), name) ==> Misses(t.all, t.flat, key, fixed)))))
  {
    var e := SymbolEntry(|t.all| - 1, symbol);
    hide Ordered, PrefixFree, ClashAt, ValidName, Conflict, SkipsFirst, Misses, TierClash, InsertSymbol, Insert, Disjoint;
    ValidFullName(t.all[e.offset].package, symbol);
    TiersArePrefixFree(t, ix);
    ConflictSplits(t, ix, NameOf(t.all, e));
    ClashIff(Keys(ix.symbols), NameOf(t.all, e), fixed);
    TierClashIff(t.all, t.recent, KeyOf(t.all, e), fixed);
    TierClashIff(t.all, t.flat, KeyOf(t.all, e), fixed);
  }

  /** A symbol on which the two stay alike: it is invalid, or nothing conflicts with it, or neither misses
      every conflict, so that both refuse it. */
  predicate Sound<V>(t: Tiers<V>, ix: Index<V>, symbol: string, fixed: bool)
    requires Stored(t) && t.all != []
  {
    var e := SymbolEntry(|t.all| - 1, symbol);
    var key, name := KeyOf(t.all, e), NameOf(t.all, e);
    || !ValidName(symbol)
    || !Conflict(Keys(ix.symbols), name)
    || (&& (fixed || !SkipsFirst(Keys(ix.symbols), name))
        && (|| (Conflict(Names(t.all, t.recent), name) && !Misses(t.all, t.recent, key, fixed))
            || (Conflict(Names(t.all, t.flat), name) && !Misses(t.all, t.flat, key, fixed))))
  }

  /** Both decide alike on the symbol, and are alike after it. */
  ghost predicate AddAlike<V>(t: Tiers<V>, ix: Index<V>, symbol: string, fixed: bool)
    requires Stored(t) && t.all != []
  {
    var added := Add(ix.symbols, NamedEntry(t.all, SymbolEntry(|t.all| - 1, symbol)), fixed);
    AddTo(t, symbol, fixed).1 == added.ok && Refines(AddTo(t, symbol, fixed).0, ix.(symbols := added.entries))
  }

  lemma {:induction false} AddSame<V>(t: Tiers<V>, ix: Index<V>, symbol: string, fixed: bool)
    requires Refines(t, ix) && t.all != [] && ValidName(t.all[|t.all| - 1].package) && Sound(t, ix, symbol, fixed)
    ensures AddAlike(t, ix, symbol, fixed)
  {
    hide Ordered, PrefixFree, ClashAt, ValidName, Conflict, Insert, InsertSymbol, Disjoint, Misses, TierClash, SkipsFirst;
    var e := SymbolEntry(|t.all| - 1, symbol);
    var x := NamedEntry(t.all, e);
    ValidFullName(t.all[e.offset].package, symbol);
    if ValidName(symbol) {
      DecideAlikeIff(t, ix, symbol, fixed);
      ConflictSplits(t, ix, x.key);
      if Add(ix.symbols, x, fixed).ok {
        ClashIff(Keys(ix.symbols), x.key, fixed);
        BothGrow(t, ix, e, fixed);
      }
    }
  }

  /** An unsound symbol parts the two: the map takes a key that conflicts, or the tiers take what the map
      refuses. */
  lemma UnsoundParts<V>(t: Tiers<V>, ix: Index<V>, symbol: string, fixed: bool)
    requires Refines(t, ix) && t.all != [] && ValidName(t.all[|t.all| - 1].package) && !Sound(t, ix, symbol, fixed)
    ensures !AddAlike(t, ix, symbol, fixed)
  {
    hide Ordered, PrefixFree, ClashAt, ValidName, Conflict, Insert, InsertSymbol, Disjoint, Misses, TierClash, SkipsFirst;
    var e := SymbolEntry(|t.all| - 1, symbol);
    var x := NamedEntry(t.all, e);
    ValidFullName(t.all[e.offset].package, symbol);
    DecideAlikeIff(t, ix, symbol, fixed);
    ConflictSplits(t, ix, x.key);
    ClashIff(Keys(ix.symbols), x.key, fixed);
    InsertIsPrefixFreeIff(ix.symbols, x);
  }

  /** Both decide alike on a symbol and stay alike if and only if it is sound. */
  lemma SoundIff<V>(t: Tiers<V>, ix: Index<V>, symbol: string, fixed: bool)
    requires Refines(t, ix) && t.all != [] && ValidName(t.all[|t.all| - 1].package)
    ensures AddAlike(t, ix, symbol, fixed) <==> Sound(t, ix, symbol, fixed)
  {
    RefinedIsStored(t, ix);
    hide AddAlike, Sound, Refines;
    if Sound(t, ix, symbol, fixed) {
      AddSame(t, ix, symbol, fixed);
    } else {
      UnsoundParts(t, ix, symbol, fixed);
    }
  }

  lemma BothGrow<V>(t: Tiers<V>, ix: Index<V>, e: SymbolEntry, fixed: bool)
    requires Refines(t, ix) && e.offset < |t.all| && ValidName(NameOf(t.all, e)) && !Conflict(Keys(ix.symbols), NameOf(t.all, e))
    requires Add(ix.symbols, NamedEntry(t.all, e), fixed).ok
    ensures Refines(t.(recent := InsertSymbol(t.all, t.recent, e)), ix.(symbols := Insert(ix.symbols, NamedEntry(t.all, e))))
  {
    hide Sorted, AllValid, PrefixFree, Clash, ValidName, Conflict, Insert, InsertSymbol, Disjoint;
    var x := NamedEntry(t.all, e);
    ConflictSplits(t, ix, x.key);
    AddKeepsOrder(ix.symbols, x, fixed);
    InsertIsPrefixFreeIff(ix.symbols, x);
    RecentGrows(t, e);
    InsertIsInsert(t.all, t.recent, e);
    forall y
      ensures y in Insert(ix.symbols, x) <==> y in Insert(Named(t.all, t.recent), x) || y in Named(t.all, t.flat)
    {
      InsertedEntries(ix.symbols, x, y);
      InsertedEntries(Named(t.all, t.recent), x, y);
    }
    var after := t.(recent := InsertSymbol(t.all, t.recent, e));
    assert Valid(after);
    assert Ordered(Keys(Insert(ix.symbols, x))) && PrefixFree(Keys(Insert(ix.symbols, x)));
    assert Named(after.all, after.recent) == Insert(Named(t.all, t.recent), x);
  }

  /** A file added to all_values_ changes no stored name. */
  lemma PushKeeps<V>(t: Tiers<V>, ix: Index<V>, file: EncodedEntry<V>)
    requires Refines(t, ix)
    ensures Refines(t.(all := t.all + [file]), ix)
  {
    var all := t.all + [file];
    assert Named(all, t.recent) == Named(t.all, t.recent);
    assert Named(all, t.flat) == Named(t.all, t.flat);
    assert forall e :: e in t.recent || e in t.flat ==> NameOf(all, e) == NameOf(t.all, e);
  }

  // ---- Flattening ---------------------------------------------------------------------------

  lemma LeastIsFirst<V>(a: seq<Entry<V>>, b: seq<Entry<V>>)
    requires Sorted(Keys(a)) && Sorted(Keys(b)) && a != [] && b != []
    requires a[0] in b && b[0] in a
    ensures a[0] == b[0]
  {
    var i :| 0 <= i < |b| && b[i] == a[0];
    var j :| 0 <= j < |a| && a[j] == b[0];
    assert 0 < i ==> Less(Keys(b)[0], Keys(b)[i]);
    assert 0 < j ==> Less(Keys(a)[0], Keys(a)[j]);
    LessIsTotal(a[0].key, b[0].key);
  }

  lemma FirstIsNotInRest<V>(a: seq<Entry<V>>)
    requires Sorted(Keys(a)) && a != []
    ensures a[0] !in a[1..] && Sorted(Keys(a[1..]))
  {
    assert Keys(a[1..]) == Keys(a)[1..];
    if a[0] in a[1..] {
      var i :| 0 <= i < |a| - 1 && a[1..][i] == a[0];
      assert Less(Keys(a)[0], Keys(a)[i + 1]);
      LessIsTotal(a[0].key, a[0].key);
    }
  }

  lemma NoMembers<T>(s: seq<T>)
    ensures s == [] <==> forall e :: e !in s
  {
    if s != [] {
      assert s[0] in s;
    }
  }

  /** A sorted list of entries is determined by its members. */
  lemma {:induction false} SortedIsUnique<V>(a: seq<Entry<V>>, b: seq<Entry<V>>)
    requires Sorted(Keys(a)) && Sorted(Keys(b))
    requires forall e :: e in a <==> e in b
    ensures a == b
  {
    hide Sorted;
    NoMembers(a);
    NoMembers(b);
    if a != [] {
      assert a[0] in a && b[0] in b;
      LeastIsFirst(a, b);
      FirstIsNotInRest(a);
      FirstIsNotInRest(b);
      assert a == [a[0]] + a[1..] && b == [b[0]] + b[1..];
      assert forall e :: e in a[1..] <==> e in a && e != a[0];
      assert forall e :: e in b[1..] <==> e in b && e != b[0];
      SortedIsUnique(a[1..], b[1..]);
    }
  }

  /** In a prefix-free map no two names are confusable. */
  lemma TiersAreClear<V>(t: Tiers<V>, ix: Index<V>)
    requires Refines(t, ix)
    ensures Clear(t.all, t.recent, t.flat)
  {
    forall d, e | d in t.recent && e in t.flat
      ensures !Confusable(KeyOf(t.all, e), KeyOf(t.all, d))
    {
      NamedMembers(t.all, t.recent, NamedEntry(t.all, d));
      NamedMembers(t.all, t.flat, NamedEntry(t.all, e));
      assert NamedEntry(t.all, d) in ix.symbols && NamedEntry(t.all, e) in ix.symbols;
      var i :| 0 <= i < |ix.symbols| && ix.symbols[i] == NamedEntry(t.all, e);
      var j :| 0 <= j < |ix.symbols| && ix.symbols[j] == NamedEntry(t.all, d);
      assert Keys(ix.symbols)[i] == NameOf(t.all, e) && Keys(ix.symbols)[j] == NameOf(t.all, d);
      if Confusable(KeyOf(t.all, e), KeyOf(t.all, d)) {
        ConfusedIsCovered(KeyOf(t.all, e), KeyOf(t.all, d));
      }
    }
  }

  /** Once flattened, the vector spells the sorted map, entry for entry. */
  lemma FlatIsTheMap<V>(t: Tiers<V>, ix: Index<V>)
    requires Refines(t, ix)
    ensures Named(t.all, Flattened(t).flat) == ix.symbols
    ensures Refines(Flattened(t), ix)
  {
    hide PrefixFree, ValidName, Less, Clear;
    var flat := Merge(t.all, t.recent, t.flat);
    TiersAreClear(t, ix);
    MergeIsSorted(t.all, t.recent, t.flat);
    forall x
      ensures x in Named(t.all, flat) <==> x in ix.symbols
    {
      MergedNames(t, x);
    }
    SortedIsUnique(Named(t.all, flat), ix.symbols);
  }

  lemma MergedNames<V>(t: Tiers<V>, x: Entry<V>)
    requires Stored(t)
    ensures x in Named(t.all, Merge(t.all, t.recent, t.flat)) <==>
            x in Named(t.all, t.recent) || x in Named(t.all, t.flat)
  {
    hide Named, NamedEntry, Merge;
    NamedMembers(t.all, t.recent, x);
    NamedMembers(t.all, t.flat, x);
    NamedMembers(t.all, Merge(t.all, t.recent, t.flat), x);
    forall e
      ensures e in Merge(t.all, t.recent, t.flat) <==> e in t.recent || e in t.flat
    {
      MergedMembers(t.all, t.recent, t.flat, e);
    }
  }

  /** Even when the comparator passes over a name, the probe with it answers as the probe of full names. */
  lemma FindsTheSame<V>(all: seq<EncodedEntry<V>>, flat: seq<SymbolEntry>, name: string)
    requires InRange(all, flat) && Sorted(Names(all, flat)) && PrefixFree(Names(all, flat))
    ensures FindFlat(all, flat, name) == Find(Named(all, flat), name)
  {
    var key, keys := Text(name), Names(all, flat);
    var n := UpperBound(keys, name);
    SearchesFullNames(all, flat, key);
    if PassesOver(all, flat, key) {
      ConfusedIsCovered(key, KeyOf(all, flat[n]));
      if 0 < n && IsSubSymbol(keys[n - 1], name) {
        CoverOfCover(keys[n - 1], name, keys[n]);
      }
    }
  }

  lemma CoverOfCover(a: string, b: string, c: string)
    requires IsSubSymbol(a, b) && IsSubSymbol(b, c)
    ensures IsSubSymbol(a, c)
  {
  }

  // ---- Runs ---------------------------------------------------------------------------------

  datatype Op<V> = AddFile(file: string, package: string, decls: seq<Decl>, value: V) | FindSymbol(name: string)
  datatype Answer<V> = Done(ok: bool) | Found(value: Option<V>)

  function RunTiers<V>(t: Tiers<V>, ops: seq<Op<V>>, fixed: bool): seq<Answer<V>>
    requires Stored(t)
    decreases |ops|
  {
    if ops == [] then []
    else
      match ops[0]
      case AddFile(file, package, decls, value) =>
        var next := FileInTiers(t, file, package, decls, value, fixed);
        [Done(next.1)] + RunTiers(next.0, ops[1..], fixed)
      case FindSymbol(name) =>
        var next := Flattened(t);
        [Found(FindFlat(next.all, next.flat, name))] + RunTiers(next, ops[1..], fixed)
  }

  function RunMap<V>(ix: Index<V>, ops: seq<Op<V>>, fixed: bool): seq<Answer<V>>
    decreases |ops|
  {
    if ops == [] then []
    else
      match ops[0]
      case AddFile(file, package, decls, value) =>
        var next := FileInMap(ix, file, package, decls, value, fixed);
        [Done(next.1)] + RunMap(next.0, ops[1..], fixed)
      case FindSymbol(name) =>
        [Found(Find(ix.symbols, name))] + RunMap(ix, ops[1..], fixed)
  }

  // ---- Runs on which the two stay alike -----------------------------------------------------

  predicate DeclSound<V>(t: Tiers<V>, ix: Index<V>, d: Decl, fixed: bool)
    requires Stored(t) && t.all != []
  {
    d.Symbol? ==> Sound(t, ix, d.name, fixed)
  }

  ghost predicate DeclAlike<V>(t: Tiers<V>, ix: Index<V>, package: string, d: Decl, value: V, fixed: bool)
    requires Stored(t) && t.all != []
  {
    var inTiers, inMap := DeclInTiers(t, d, fixed), DeclInMap(ix, package, d, value, fixed);
    inTiers.1 == inMap.1 && Refines(inTiers.0, inMap.0)
  }

  lemma DeclAlikeIff<V>(t: Tiers<V>, ix: Index<V>, package: string, d: Decl, value: V, fixed: bool)
    requires Refines(t, ix) && t.all != [] && ValidName(package) && t.all[|t.all| - 1] == EncodedEntry(value, package)
    ensures DeclAlike(t, ix, package, d, value, fixed) <==> DeclSound(t, ix, d, fixed)
  {
    hide Ordered, PrefixFree, Disjoint, ValidName, Sound, AddTo, Add;
    if d.Symbol? {
      SoundIff(t, ix, d.name, fixed);
    }
  }

  /** Every declaration both get to is sound at its turn. */
  predicate DeclsSound<V>(t: Tiers<V>, ix: Index<V>, package: string, decls: seq<Decl>, value: V, fixed: bool)
    requires Stored(t) && t.all != []
    decreases |decls|
  {
    decls == [] ||
    (DeclSound(t, ix, decls[0], fixed)
     && var inTiers, inMap := DeclInTiers(t, decls[0], fixed), DeclInMap(ix, package, decls[0], value, fixed);
        (inTiers.1 && inMap.1 ==> DeclsSound(inTiers.0, inMap.0, package, decls[1..], value, fixed)))
  }

  /** Both decide alike on every declaration they get to, and are alike after it. */
  ghost predicate DeclsAlike<V>(t: Tiers<V>, ix: Index<V>, package: string, decls: seq<Decl>, value: V, fixed: bool)
    requires Stored(t) && t.all != []
    decreases |decls|
  {
    decls == [] ||
    (DeclAlike(t, ix, package, decls[0], value, fixed)
     && var inTiers, inMap := DeclInTiers(t, decls[0], fixed), DeclInMap(ix, package, decls[0], value, fixed);
        (inTiers.1 && inMap.1 ==> DeclsAlike(inTiers.0, inMap.0, package, decls[1..], value, fixed)))
  }

  lemma {:induction false} DeclsAlikeIff<V>(t: Tiers<V>, ix: Index<V>, package: string, decls: seq<Decl>, value: V, fixed: bool)
    requires Refines(t, ix) && t.all != [] && ValidName(package) && t.all[|t.all| - 1] == EncodedEntry(value, package)
    ensures DeclsAlike(t, ix, package, decls, value, fixed) <==> DeclsSound(t, ix, package, decls, value, fixed)
    decreases |decls|
  {
    hide Ordered, PrefixFree, Disjoint, ValidName, DeclSound, DeclInTiers, DeclInMap;
    if decls != [] {
      DeclAlikeIff(t, ix, package, decls[0], value, fixed);
      var inTiers, inMap := DeclInTiers(t, decls[0], fixed), DeclInMap(ix, package, decls[0], value, fixed);
      if DeclAlike(t, ix, package, decls[0], value, fixed) && inTiers.1 && inMap.1 {
        DeclsAlikeIff(inTiers.0, inMap.0, package, decls[1..], value, fixed);
      }
    }
  }

  lemma {:induction false} DeclsEndAlike<V>(t: Tiers<V>, ix: Index<V>, package: string, decls: seq<Decl>, value: V, fixed: bool)
    requires Refines(t, ix) && t.all != [] && DeclsAlike(t, ix, package, decls, value, fixed)
    ensures DeclsInTiers(t, decls, fixed).1 == DeclsInMap(ix, package, decls, value, fixed).1
    ensures Refines(DeclsInTiers(t, decls, fixed).0, DeclsInMap(ix, package, decls, value, fixed).0)
    decreases |decls|
  {
    hide Ordered, PrefixFree, Disjoint, DeclInTiers, DeclInMap;
    if decls != [] {
      var inTiers, inMap := DeclInTiers(t, decls[0], fixed), DeclInMap(ix, package, decls[0], value, fixed);
      if inTiers.1 {
        DeclsEndAlike(inTiers.0, inMap.0, package, decls[1..], value, fixed);
      }
    }
  }

  /** The tiers and the map as AddFile has them when it turns to the declarations. */
  function Opened<V>(t: Tiers<V>, file: string, package: string, value: V): Tiers<V> {
    t.(all := t.all + [EncodedEntry(value, package)], files := t.files + {file})
  }

  function Noted<V>(ix: Index<V>, file: string): Index<V> { ix.(files := ix.files + {file}) }

  /** A lookup is always sound; a file with an invalid package when its name is known already, so that the
      map does not note it either; a file of a new name when its declarations are. */
  predicate OpSound<V>(t: Tiers<V>, ix: Index<V>, op: Op<V>, fixed: bool)
    requires Stored(t)
  {
    match op
    case FindSymbol(_) => true
    case AddFile(file, package, decls, value) =>
      if !ValidName(package) then file in ix.files
      else file !in ix.files ==> DeclsSound(Opened(t, file, package, value), Noted(ix, file), package, decls, value, fixed)
  }

  /** Both answer the call alike, and are alike after it and after every declaration in it. */
  ghost predicate OpAlike<V>(t: Tiers<V>, ix: Index<V>, op: Op<V>, fixed: bool)
    requires Stored(t)
  {
    match op
    case FindSymbol(name) =>
      Refines(Flattened(t), ix) && FindFlat(t.all, Flattened(t).flat, name) == Find(ix.symbols, name)
    case AddFile(file, package, decls, value) =>
      var inTiers := FileInTiers(t, file, package, decls, value, fixed);
      var inMap := FileInMap(ix, file, package, decls, value, fixed);
      && inTiers.1 == inMap.1 && Refines(inTiers.0, inMap.0)
      && (ValidName(package) && file !in ix.files ==>
            DeclsAlike(Opened(t, file, package, value), Noted(ix, file), package, decls, value, fixed))
  }

  lemma OpenedRefines<V>(t: Tiers<V>, ix: Index<V>, file: string, package: string, value: V)
    requires Refines(t, ix)
    ensures Refines(Opened(t, file, package, value), Noted(ix, file))
  {
    PushKeeps(t, ix, EncodedEntry(value, package));
    hide Ordered, PrefixFree, Disjoint;
  }

  lemma FileAlikeIff<V>(t: Tiers<V>, ix: Index<V>, file: string, package: string, decls: seq<Decl>, value: V, fixed: bool)
    requires Refines(t, ix)
    ensures OpAlike(t, ix, AddFile(file, package, decls, value), fixed) <==> OpSound(t, ix, AddFile(file, package, decls, value), fixed)
  {
    hide Valid, Ordered, PrefixFree, ValidName, DeclsSound, DeclsAlike, DeclsInTiers, DeclsInMap;
    assert Stored(t) by { RefinedIsStored(t, ix); }
    if !ValidName(package) {
      PushKeeps(t, ix, EncodedEntry(value, ""));
      if file !in ix.files {
        MapNotes(ix, file, package, decls, value, fixed);
      }
    } else {
      PushKeeps(t, ix, EncodedEntry(value, package));
      OpenedRefines(t, ix, file, package, value);
      var ready, noted := Opened(t, file, package, value), Noted(ix, file);
      if file !in ix.files {
        DeclsAlikeIff(ready, noted, package, decls, value, fixed);
        if DeclsAlike(ready, noted, package, decls, value, fixed) {
          DeclsEndAlike(ready, noted, package, decls, value, fixed);
        }
      }
    }
  }

  lemma RefinedIsStored<V>(t: Tiers<V>, ix: Index<V>)
    requires Refines(t, ix)
    ensures Stored(t)
  {
  }

  /** The map never forgets a file name it has noted. */
  lemma {:induction false} DeclsKeepFiles<V>(ix: Index<V>, package: string, decls: seq<Decl>, value: V, fixed: bool)
    ensures DeclsInMap(ix, package, decls, value, fixed).0.files == ix.files
    decreases |decls|
  {
    hide Add;
    if decls != [] {
      DeclsKeepFiles(DeclInMap(ix, package, decls[0], value, fixed).0, package, decls[1..], value, fixed);
    }
  }

  lemma MapNotes<V>(ix: Index<V>, file: string, package: string, decls: seq<Decl>, value: V, fixed: bool)
    requires file !in ix.files
    ensures FileInMap(ix, file, package, decls, value, fixed).0.files == ix.files + {file} != ix.files
  {
    DeclsKeepFiles(Noted(ix, file), package, decls, value, fixed);
  }

  lemma OpAlikeIff<V>(t: Tiers<V>, ix: Index<V>, op: Op<V>, fixed: bool)
    requires Refines(t, ix)
    ensures OpAlike(t, ix, op, fixed) <==> OpSound(t, ix, op, fixed)
  {
    hide Refines, OpAlike, OpSound;
    match op
    case FindSymbol(name) => LookupAlike(t, ix, name, fixed);
    case AddFile(file, package, decls, value) => FileAlikeIff(t, ix, file, package, decls, value, fixed);
  }

  lemma LookupAlike<V>(t: Tiers<V>, ix: Index<V>, name: string, fixed: bool)
    requires Refines(t, ix)
    ensures OpAlike(t, ix, FindSymbol(name), fixed) && OpSound(t, ix, FindSymbol(name), fixed)
  {
    LookupSame(t, ix, name);
    hide Refines;
  }

  function TiersAfter<V>(t: Tiers<V>, op: Op<V>, fixed: bool): (r: Tiers<V>)
    requires Stored(t)
    ensures Stored(r)
  {
    match op
    case FindSymbol(_) => Flattened(t)
    case AddFile(file, package, decls, value) => FileInTiers(t, file, package, decls, value, fixed).0
  }

  function MapAfter<V>(ix: Index<V>, op: Op<V>, fixed: bool): Index<V> {
    match op
    case FindSymbol(_) => ix
    case AddFile(file, package, decls, value) => FileInMap(ix, file, package, decls, value, fixed).0
  }

  predicate OpsSound<V>(t: Tiers<V>, ix: Index<V>, ops: seq<Op<V>>, fixed: bool)
    requires Stored(t)
    decreases |ops|
  {
    ops == [] ||
    (OpSound(t, ix, ops[0], fixed) && OpsSound(TiersAfter(t, ops[0], fixed), MapAfter(ix, ops[0], fixed), ops[1..], fixed))
  }

  ghost predicate OpsAlike<V>(t: Tiers<V>, ix: Index<V>, ops: seq<Op<V>>, fixed: bool)
    requires Stored(t)
    decreases |ops|
  {
    ops == [] ||
    (OpAlike(t, ix, ops[0], fixed) && OpsAlike(TiersAfter(t, ops[0], fixed), MapAfter(ix, ops[0], fixed), ops[1..], fixed))
  }

  lemma OpKeepsAlike<V>(t: Tiers<V>, ix: Index<V>, op: Op<V>, fixed: bool)
    requires Stored(t) && OpAlike(t, ix, op, fixed)
    ensures Refines(TiersAfter(t, op, fixed), MapAfter(ix, op, fixed))
  {
    hide Refines, FileInTiers, FileInMap, Flattened;
  }

  /** Along every sequence of AddFile and FindSymbol calls the tiers and the one map stay alike if and only
      if every declaration is sound at its turn. */
  lemma {:induction false} RunAlikeIff<V>(t: Tiers<V>, ix: Index<V>, ops: seq<Op<V>>, fixed: bool)
    requires Refines(t, ix)
    ensures OpsAlike(t, ix, ops, fixed) <==> OpsSound(t, ix, ops, fixed)
    decreases |ops|
  {
    RefinedIsStored(t, ix);
    hide Refines, OpAlike, OpSound, TiersAfter, MapAfter;
    if ops != [] {
      OpAlikeIff(t, ix, ops[0], fixed);
      if OpAlike(t, ix, ops[0], fixed) {
        OpKeepsAlike(t, ix, ops[0], fixed);
        RunAlikeIff(TiersAfter(t, ops[0], fixed), MapAfter(ix, ops[0], fixed), ops[1..], fixed);
      }
    }
  }

  /** While they stay alike, wherever the lookups make the index flatten, the two tiers answer every call
      as the one sorted map does: files added, files refused, and symbols found. */
  lemma {:induction false} TiersAnswerAsOneMap<V>(t: Tiers<V>, ix: Index<V>, ops: seq<Op<V>>, fixed: bool)
    requires Refines(t, ix) && OpsSound(t, ix, ops, fixed)
    ensures RunTiers(t, ops, fixed) == RunMap(ix, ops, fixed)
    decreases |ops|
  {
    RefinedIsStored(t, ix);
    hide Refines, OpSound, FileInTiers, FileInMap, FindFlat, Find, Merge, DeclsAlike;
    if ops != [] {
      OpAlikeIff(t, ix, ops[0], fixed);
      OpKeepsAlike(t, ix, ops[0], fixed);
      TiersAnswerAsOneMap(TiersAfter(t, ops[0], fixed), MapAfter(ix, ops[0], fixed), ops[1..], fixed);
    }
  }

  /** From the empty index. */
  lemma TiersAnswerFromEmpty<V>(ops: seq<Op<V>>, fixed: bool)
    requires OpsSound(Tiers([], [], [], {}, {}), Index([], {}, {}), ops, fixed)
    ensures RunTiers(Tiers([], [], [], {}, {}), ops, fixed) == RunMap(Index([], {}, {}), ops, fixed)
  {
    hide RunTiers, RunMap, OpsSound;
    EmptyRefines<V>();
    TiersAnswerAsOneMap(Tiers([], [], [], {}, {}), Index([], {}, {}), ops, fixed);
  }

  lemma EmptyRefines<V>()
    ensures Refines<V>(Tiers([], [], [], {}, {}), Index([], {}, {}))
  {
  }

  lemma LookupSame<V>(t: Tiers<V>, ix: Index<V>, name: string)
    requires Refines(t, ix)
    ensures Refines(Flattened(t), ix) && FindFlat(t.all, Flattened(t).flat, name) == Find(ix.symbols, name)
  {
    hide PrefixFree, AllValid, Sorted, Find, FindFlat, Disjoint;
    FlatIsTheMap(t, ix);
    FindsTheSame(t.all, Flattened(t).flat, name);
  }

  // ---- Where that is so ---------------------------------------------------------------------

  /** No symbol of the file conflicts with what is in the map when its turn comes. */
  predicate DeclsFit<V>(ix: Index<V>, package: string, decls: seq<Decl>, value: V)
    decreases |decls|
  {
    decls == [] ||
    ((decls[0].Symbol? ==> !Conflict(Keys(ix.symbols), FullName(package, decls[0].name)))
     && var next := DeclInMap(ix, package, decls[0], value, false);
        (next.1 ==> DeclsFit(next.0, package, decls[1..], value)))
  }

  /** As written, declarations without conflicts are sound, empty symbols included. */
  lemma {:induction false} FitIsSound<V>(t: Tiers<V>, ix: Index<V>, package: string, decls: seq<Decl>, value: V)
    requires Refines(t, ix) && t.all != [] && ValidName(package) && t.all[|t.all| - 1] == EncodedEntry(value, package)
    requires DeclsFit(ix, package, decls, value)
    ensures DeclsSound(t, ix, package, decls, value, false)
    decreases |decls|
  {
    hide Ordered, PrefixFree, Disjoint, ValidName, Conflict, DeclInTiers, DeclInMap;
    if decls != [] {
      DeclAlikeIff(t, ix, package, decls[0], value, false);
      var inTiers, inMap := DeclInTiers(t, decls[0], false), DeclInMap(ix, package, decls[0], value, false);
      if inTiers.1 {
        FitIsSound(inTiers.0, inMap.0, package, decls[1..], value);
      }
    }
  }

  /** Every file has a valid package and either a known name or declarations that fit at their turn. */
  predicate OpsFit<V>(ix: Index<V>, ops: seq<Op<V>>)
    decreases |ops|
  {
    ops == [] ||
    ((match ops[0]
      case FindSymbol(_) => true
      case AddFile(file, package, decls, value) =>
        ValidName(package) && (file !in ix.files ==> DeclsFit(Noted(ix, file), package, decls, value)))
     && OpsFit(MapAfter(ix, ops[0], false), ops[1..]))
  }

  /** As written, runs without conflicts are sound. */
  lemma {:induction false} FitRunIsSound<V>(t: Tiers<V>, ix: Index<V>, ops: seq<Op<V>>)
    requires Refines(t, ix) && OpsFit(ix, ops)
    ensures OpsSound(t, ix, ops, false)
    decreases |ops|
  {
    RefinedIsStored(t, ix);
    hide Refines, TiersAfter, MapAfter, ValidName, DeclsFit, DeclsSound;
    if ops != [] {
      match ops[0] {
        case FindSymbol(_) =>
        case AddFile(file, package, decls, value) =>
          if file !in ix.files {
            OpenedRefines(t, ix, file, package, value);
            FitIsSound(Opened(t, file, package, value), Noted(ix, file), package, decls, value);
          }
      }
      OpAlikeIff(t, ix, ops[0], false);
      OpKeepsAlike(t, ix, ops[0], false);
      FitRunIsSound(TiersAfter(t, ops[0], false), MapAfter(ix, ops[0], false), ops[1..]);
    }
  }

  /** No stored symbol is empty. */
  predicate NoEmptySymbols(s: seq<SymbolEntry>) {
    forall i :: 0 <= i < |s| ==> s[i].symbol != ""
  }

  predicate NoneEmpty<V>(t: Tiers<V>) { NoEmptySymbols(t.recent) && NoEmptySymbols(t.flat) }

  predicate AllNamed(decls: seq<Decl>) {
    forall i :: 0 <= i < |decls| ==> decls[i].Symbol? ==> decls[i].name != ""
  }

  lemma NamedIsSound<V>(t: Tiers<V>, ix: Index<V>, symbol: string)
    requires Refines(t, ix) && t.all != [] && NoneEmpty(t)
    ensures Sound(t, ix, symbol, true)
  {
    hide Ordered, PrefixFree, Disjoint, ValidName, Conflict;
    ConflictSplits(t, ix, NameOf(t.all, SymbolEntry(|t.all| - 1, symbol)));
  }

  lemma StaysNamed<V>(t: Tiers<V>, d: Decl, fixed: bool)
    requires Stored(t) && t.all != [] && NoneEmpty(t) && (d.Symbol? ==> d.name != "")
    ensures NoneEmpty(DeclInTiers(t, d, fixed).0)
  {
    hide TierClash, ValidName, UpperBoundBy, SymbolLess;
  }

  /** With the corrected comparisons and no empty symbols, all declarations are sound, conflicts or not. */
  lemma {:induction false} CorrectedIsSound<V>(t: Tiers<V>, ix: Index<V>, package: string, decls: seq<Decl>, value: V)
    requires Refines(t, ix) && t.all != [] && ValidName(package) && t.all[|t.all| - 1] == EncodedEntry(value, package)
    requires NoneEmpty(t) && AllNamed(decls)
    ensures DeclsSound(t, ix, package, decls, value, true)
    decreases |decls|
  {
    hide Ordered, PrefixFree, Disjoint, ValidName, Sound, NoneEmpty, DeclInTiers, DeclInMap;
    if decls != [] {
      if decls[0].Symbol? {
        NamedIsSound(t, ix, decls[0].name);
      }
      DeclAlikeIff(t, ix, package, decls[0], value, true);
      StaysNamed(t, decls[0], true);
      var inTiers, inMap := DeclInTiers(t, decls[0], true), DeclInMap(ix, package, decls[0], value, true);
      if inTiers.1 {
        CorrectedIsSound(inTiers.0, inMap.0, package, decls[1..], value);
      }
    }
  }

  predicate OpNamed<V>(op: Op<V>) { op.AddFile? ==> ValidName(op.package) && AllNamed(op.decls) }

  lemma {:induction false} DeclsStayNamed<V>(t: Tiers<V>, decls: seq<Decl>, fixed: bool)
    requires Stored(t) && t.all != [] && NoneEmpty(t) && AllNamed(decls)
    ensures NoneEmpty(DeclsInTiers(t, decls, fixed).0)
    decreases |decls|
  {
    hide NoneEmpty, DeclInTiers;
    if decls != [] {
      StaysNamed(t, decls[0], fixed);
      DeclsStayNamed(DeclInTiers(t, decls[0], fixed).0, decls[1..], fixed);
    }
  }

  lemma MergeStaysNamed<V>(t: Tiers<V>)
    requires Stored(t) && NoneEmpty(t)
    ensures NoneEmpty(Flattened(t))
  {
    var flat := Merge(t.all, t.recent, t.flat);
    hide Merge;
    forall i | 0 <= i < |flat|
      ensures flat[i].symbol != ""
    {
      MergedMembers(t.all, t.recent, t.flat, flat[i]);
    }
  }

  lemma OpStaysNamed<V>(t: Tiers<V>, op: Op<V>, fixed: bool)
    requires Stored(t) && NoneEmpty(t) && OpNamed(op)
    ensures NoneEmpty(TiersAfter(t, op, fixed))
  {
    match op
    case FindSymbol(_) => MergeStaysNamed(t);
    case AddFile(file, package, decls, value) =>
      assert NoneEmpty(Opened(t, file, package, value));
      hide NoneEmpty, AllNamed;
      DeclsStayNamed(Opened(t, file, package, value), decls, fixed);
  }

  /** With the corrected comparisons, so are all runs of files with valid packages and no empty symbol. */
  lemma {:induction false} CorrectedRunIsSound<V>(t: Tiers<V>, ix: Index<V>, ops: seq<Op<V>>)
    requires Refines(t, ix) && NoneEmpty(t) && forall i :: 0 <= i < |ops| ==> OpNamed(ops[i])
    ensures OpsSound(t, ix, ops, true)
    decreases |ops|
  {
    RefinedIsStored(t, ix);
    if ops != [] {
      assert OpNamed(ops[0]);
      OpStaysNamed(t, ops[0], true);
      CorrectedOpIsSound(t, ix, ops[0]);
      hide Refines, TiersAfter, MapAfter, NoneEmpty, OpNamed;
      OpAlikeIff(t, ix, ops[0], true);
      OpKeepsAlike(t, ix, ops[0], true);
      CorrectedRunIsSound(TiersAfter(t, ops[0], true), MapAfter(ix, ops[0], true), ops[1..]);
    }
  }

  lemma CorrectedOpIsSound<V>(t: Tiers<V>, ix: Index<V>, op: Op<V>)
    requires Refines(t, ix) && Stored(t) && NoneEmpty(t) && OpNamed(op)
    ensures OpSound(t, ix, op, true)
  {
    match op
    case FindSymbol(_) =>
    case AddFile(file, package, decls, value) =>
      assert NoneEmpty(Opened(t, file, package, value));
      hide Refines, NoneEmpty, AllNamed, ValidName, DeclsSound;
      OpenedRefines(t, ix, file, package, value);
      CorrectedIsSound(Opened(t, file, package, value), Noted(ix, file), package, decls, value);
  }

  // ---- Files with an invalid package --------------------------------------------------------

  /** Nothing but extensions, each of which can be remembered when its turn comes. */
  predicate OnlyExtensions(extensions: set<ExtensionKey>, decls: seq<Decl>)
    decreases |decls|
  {
    decls == [] ||
    (decls[0].Extension?
     && var (after, ok) := WithExtension(extensions, decls[0].extendee, decls[0].number);
        ok && OnlyExtensions(after, decls[1..]))
  }

  lemma InvalidFullName(package: string, symbol: string)
    requires !ValidName(package)
    ensures !ValidName(FullName(package, symbol))
  {
    var i :| 0 <= i < |package| && !ValidChar(package[i]);
    assert FullName(package, symbol)[i] == package[i];
  }

  lemma {:induction false} InvalidDeclsIff<V>(ix: Index<V>, package: string, decls: seq<Decl>, value: V, fixed: bool)
    requires !ValidName(package)
    ensures DeclsInMap(ix, package, decls, value, fixed).1 <==> OnlyExtensions(ix.extensions, decls)
    decreases |decls|
  {
    hide ValidName, Clash;
    if decls != [] {
      match decls[0]
      case Symbol(name) => InvalidFullName(package, name);
      case Extension(_, _) => InvalidDeclsIff(DeclInMap(ix, package, decls[0], value, fixed).0, package, decls[1..], value, fixed);
    }
  }

  /** The tiers refuse a file with an invalid package.  The one map takes note of its name, and accepts it if
      and only if the name is new and it declares nothing but extensions that can be remembered. */
  lemma InvalidPackageIff<V>(t: Tiers<V>, ix: Index<V>, file: string, package: string, decls: seq<Decl>, value: V, fixed: bool)
    requires Stored(t) && !ValidName(package)
    ensures !FileInTiers(t, file, package, decls, value, fixed).1
    ensures FileInTiers(t, file, package, decls, value, fixed).0.files == t.files
    ensures FileInMap(ix, file, package, decls, value, fixed).1 <==> file !in ix.files && OnlyExtensions(ix.extensions, decls)
    ensures FileInMap(ix, file, package, decls, value, fixed).0.files == ix.files + {file}
  {
    hide DeclsInMap, ValidName;
    if file !in ix.files {
      InvalidDeclsIff(Noted(ix, file), package, decls, value, fixed);
      MapNotes(ix, file, package, decls, value, fixed);
    } else {
      assert ix.files + {file} == ix.files;
    }
  }

  // ---- As written they differ once there is a conflict ----------------------------------------

  const FOO_BAR: Tiers<int> :=
    Tiers([EncodedEntry(0, "")], [SymbolEntry(0, "foo.bar")], [], {"f"}, {})
  const SPLIT: Tiers<int> :=
    Tiers([EncodedEntry(0, ""), EncodedEntry(1, "")], [SymbolEntry(1, "aaa")], [SymbolEntry(0, "foo.bar")], {"f", "g"}, {})
  const WHOLE: Index<int> := Index([Entry("aaa", 1), Entry("foo.bar", 0)], {"f", "g"}, {})

  /** "foo.bar" is added, a lookup flattens the index, "aaa" is added, then "foo". */
  const DISAGREEMENT: seq<Op<int>> := [
    AddFile("f", "", [Symbol("foo.bar")], 0), FindSymbol("x"), AddFile("g", "", [Symbol("aaa")], 1), AddFile("h", "", [Symbol("foo")], 2)]

  /** "foo.bar" lies alone in one tier and "aaa" in the other, so the tiers accept "foo"; the one map holds
      both and refuses it. */
  lemma TiersMayDisagree()
    ensures RunTiers(Tiers([], [], [], {}, {}), DISAGREEMENT, false) != RunMap(Index([], {}, {}), DISAGREEMENT, false)
  {
    FirstFile();
    SecondFile();
    ThirdFile();
    hide FileInTiers, FileInMap, FindFlat, Find, Merge;
    assert RunTiers(SPLIT, DISAGREEMENT[3..], false)[0] == Done(true);
    assert RunMap(WHOLE, DISAGREEMENT[3..], false)[0] == Done(false);
    assert DISAGREEMENT[1..][1..] == DISAGREEMENT[2..] && DISAGREEMENT[2..][1..] == DISAGREEMENT[3..];
    var t1 := Flattened(FOO_BAR);
    var ix1: Index<int> := Index([Entry("foo.bar", 0)], {"f"}, {});
    assert RunTiers(t1, DISAGREEMENT[2..], false) == [Done(true)] + RunTiers(SPLIT, DISAGREEMENT[3..], false);
    assert RunMap(ix1, DISAGREEMENT[2..], false) == [Done(true)] + RunMap(WHOLE, DISAGREEMENT[3..], false);
    assert RunTiers(FOO_BAR, DISAGREEMENT[1..], false)[1..] == RunTiers(t1, DISAGREEMENT[2..], false);
    assert RunMap(ix1, DISAGREEMENT[1..], false)[1..] == RunMap(ix1, DISAGREEMENT[2..], false);
    assert RunTiers(Tiers([], [], [], {}, {}), DISAGREEMENT, false)[1..] == RunTiers(FOO_BAR, DISAGREEMENT[1..], false);
    assert RunMap(Index([], {}, {}), DISAGREEMENT, false)[1..] == RunMap(ix1, DISAGREEMENT[1..], false);
    assert RunTiers(Tiers([], [], [], {}, {}), DISAGREEMENT, false)[1..][1..][1..][0] == Done(true);
    assert RunMap(Index([], {}, {}), DISAGREEMENT, false)[1..][1..][1..][0] == Done(false);
  }

  /** A file with one symbol and no package. */
  lemma OneSymbolFile<V>(t: Tiers<V>, ix: Index<V>, file: string, symbol: string, value: V)
    requires Stored(t) && file !in t.files && file !in ix.files
    ensures FileInTiers(t, file, "", [Symbol(symbol)], value, false)
         == AddTo(t.(all := t.all + [EncodedEntry(value, "")], files := t.files + {file}), symbol, false)
    ensures FileInMap(ix, file, "", [Symbol(symbol)], value, false)
         == DeclInMap(ix.(files := ix.files + {file}), "", Symbol(symbol), value, false)
  {
    var inTiers := AddTo(t.(all := t.all + [EncodedEntry(value, "")], files := t.files + {file}), symbol, false);
    var inMap := DeclInMap(ix.(files := ix.files + {file}), "", Symbol(symbol), value, false);
    hide AddTo, Add;
    assert [Symbol(symbol)][1..] == [] && ValidName("");
    assert inTiers == (inTiers.0, inTiers.1) && inMap == (inMap.0, inMap.1);
    assert DeclsInMap(inMap.0, "", [], value, false) == (inMap.0, true);
    assert DeclsInTiers(inTiers.0, [], false) == (inTiers.0, true);
  }

  lemma FirstFile()
    ensures FileInTiers(Tiers([], [], [], {}, {}), "f", "", [Symbol("foo.bar")], 0, false) == (FOO_BAR, true)
    ensures FileInMap(Index([], {}, {}), "f", "", [Symbol("foo.bar")], 0, false) == (Index([Entry("foo.bar", 0)], {"f"}, {}), true)
  {
    OneSymbolFile(Tiers([], [], [], {}, {}), Index([], {}, {}), "f", "foo.bar", 0);
    FooBarInTiers();
    FooBarInMap();
    hide FileInTiers, FileInMap, AddTo, DeclInMap;
    assert [] + [EncodedEntry(0, "")] == [EncodedEntry(0, "")] && {} + {"f"} == {"f"};
  }

  lemma FooBarInTiers()
    ensures AddTo(Tiers([EncodedEntry(0, "")], [], [], {"f"}, {}), "foo.bar", false) == (FOO_BAR, true)
  {
    FooSorts();
    hide IsSubSymbol, Less, ValidName;
    assert InsertSymbol([EncodedEntry(0, "")], [], SymbolEntry(0, "foo.bar")) == [SymbolEntry(0, "foo.bar")];
  }

  lemma FooBarInMap()
    ensures DeclInMap(Index([], {"f"}, {}), "", Symbol("foo.bar"), 0, false) == (Index([Entry("foo.bar", 0)], {"f"}, {}), true)
  {
    FooSorts();
    hide IsSubSymbol, Less, ValidName;
    assert Insert<int>([], Entry("foo.bar", 0)) == [Entry("foo.bar", 0)];
  }

  const TWO_FILES: seq<EncodedEntry<int>> := [EncodedEntry(0, ""), EncodedEntry(1, "")]
  const THREE_FILES: seq<EncodedEntry<int>> := [EncodedEntry(0, ""), EncodedEntry(1, ""), EncodedEntry(2, "")]

  lemma FooBarFlattens()
    ensures Flattened(FOO_BAR) == FOO_BAR.(recent := [], flat := [SymbolEntry(0, "foo.bar")])
  {
    hide SymbolLess;
  }

  lemma SecondFile()
    ensures Flattened(FOO_BAR) == FOO_BAR.(recent := [], flat := [SymbolEntry(0, "foo.bar")])
    ensures FileInTiers(Flattened(FOO_BAR), "g", "", [Symbol("aaa")], 1, false) == (SPLIT, true)
    ensures FileInMap(Index([Entry("foo.bar", 0)], {"f"}, {}), "g", "", [Symbol("aaa")], 1, false) == (WHOLE, true)
  {
    FooBarFlattens();
    hide FileInTiers, FileInMap, AddTo, DeclInMap, Flattened, Merge;
    OneSymbolFile(Flattened(FOO_BAR), Index([Entry("foo.bar", 0)], {"f"}, {}), "g", "aaa", 1);
    AaaInMap();
    AaaInTiers();
    assert {"f"} + {"g"} == {"f", "g"} && [EncodedEntry(0, "")] + [EncodedEntry(1, "")] == TWO_FILES;
  }

  lemma AaaInMap()
    ensures DeclInMap(Index([Entry("foo.bar", 0)], {"f", "g"}, {}), "", Symbol("aaa"), 1, false) == (WHOLE, true)
  {
    FooSorts();
    hide IsSubSymbol, Less, ValidName;
    var entries: seq<Entry<int>> := [Entry("foo.bar", 0)];
    assert Keys(entries) == ["foo.bar"];
    assert UpperBound(["foo.bar"], "aaa") == 0;
    assert Insert(entries, Entry("aaa", 1)) == WHOLE.symbols;
  }

  lemma AaaInTiers()
    ensures AddTo(Tiers(TWO_FILES, [], [SymbolEntry(0, "foo.bar")], {"f", "g"}, {}), "aaa", false) == (SPLIT, true)
  {
    FooSorts();
    BareLess("aaa", "foo.bar");
    hide IsSubSymbol, Less, ValidName, SymbolLess;
    assert Names(TWO_FILES, [SymbolEntry(0, "foo.bar")]) == ["foo.bar"];
    assert UpperBoundBy(TWO_FILES, [SymbolEntry(0, "foo.bar")], Pair("", "aaa")) == 0;
    assert InsertSymbol(TWO_FILES, [], SymbolEntry(1, "aaa")) == [SymbolEntry(1, "aaa")];
  }

  lemma ThirdFile()
    ensures FileInTiers(SPLIT, "h", "", [Symbol("foo")], 2, false).1
    ensures !FileInMap(WHOLE, "h", "", [Symbol("foo")], 2, false).1
  {
    OneSymbolFile(SPLIT, WHOLE, "h", "foo", 2);
    FooInMap();
    FooInTiers();
    hide FileInTiers, FileInMap, AddTo, Add;
    assert SPLIT.all + [EncodedEntry(2, "")] == THREE_FILES;
  }

  lemma FooInMap()
    ensures !Add(WHOLE.symbols, Entry("foo", 2), false).ok
  {
    FooSorts();
    hide IsSubSymbol, Less, ValidName, Insert;
    assert Keys(WHOLE.symbols) == ["aaa", "foo.bar"] && ["aaa", "foo.bar"][1..] == ["foo.bar"];
    assert UpperBound(["foo.bar"], "foo") == 0;
    assert UpperBound(["aaa", "foo.bar"], "foo") == 1;
  }

  lemma FooInTiers()
    ensures AddTo(Tiers(THREE_FILES, [SymbolEntry(1, "aaa")], [SymbolEntry(0, "foo.bar")], {"f", "g"} + {"h"}, {}), "foo", false).1
  {
    FooSorts();
    BareLess("foo", "foo.bar");
    BareLess("foo", "aaa");
    hide IsSubSymbol, Less, ValidName, SymbolLess, InsertSymbol;
    assert Names(THREE_FILES, [SymbolEntry(0, "foo.bar")]) == ["foo.bar"];
    assert Names(THREE_FILES, [SymbolEntry(1, "aaa")]) == ["aaa"];
    assert UpperBoundBy(THREE_FILES, [SymbolEntry(0, "foo.bar")], Pair("", "foo")) == 0;
    assert [SymbolEntry(1, "aaa")][1..] == [];
    assert UpperBoundBy(THREE_FILES, [SymbolEntry(1, "aaa")], Pair("", "foo")) == 1;
  }

  lemma BareLess(a: string, b: string)
    ensures SymbolLess(Pair("", a), Pair("", b)) == Less(a, b)
  {
    SymbolLessIff(Pair("", a), Pair("", b));
  }

  lemma FooSorts()
    ensures Less("aaa", "foo") && !Less("foo", "aaa") && Less("foo", "foo.bar") && Less("aaa", "foo.bar")
    ensures ValidName("") && ValidName("foo") && ValidName("aaa") && ValidName("foo.bar")
    ensures IsSubSymbol("foo", "foo.bar") && !IsSubSymbol("aaa", "foo.bar") && !IsSubSymbol("foo.bar", "aaa")
    ensures !IsSubSymbol("aaa", "foo") && !IsSubSymbol("foo.bar", "foo")
  {
    assert "foo.bar" == "foo" + ".bar";
    LessAfterPrefix("foo", ".bar");
  }
}
