// The order of symbol names, and what makes one probe of a sorted index enough:
// '.' sorts before every other character a symbol name may hold.
module SymbolOrder {

  /** `std::string::operator<`: characters first, then the shorter string. */
  predicate Less(a: string, b: string)
    decreases |a|
  {
    if b == "" then false
    else if a == "" then true
    else if a[0] != b[0] then a[0] < b[0]
    else Less(a[1..], b[1..])
  }

  predicate ValidChar(c: char) {
    c == '.' || c == '_' || '0' <= c <= '9' || 'A' <= c <= 'Z' || 'a' <= c <= 'z'
  }

  predicate ValidName(name: string) {
    forall i :: 0 <= i < |name| ==> ValidChar(name[i])
  }

  method ValidateSymbolName(name: string) returns (ok: bool)
    ensures ok <==> ValidName(name)
  {
    for i := 0 to |name|
      invariant forall j :: 0 <= j < i ==> ValidChar(name[j])
    {
      var c := name[i];
      if c != '.' && c != '_' && (c < '0' || c > '9') && (c < 'A' || c > 'Z') && (c < 'a' || c > 'z') {
        return false;
      }
    }
    return true;
  }

  /** `sub` is `super`, or a dotted parent of it ("foo.bar" of "foo.bar.baz", not of "foo.barbaz"). */
  predicate IsSubSymbol(sub: string, super: string) {
    sub == super || (sub <= super && super[|sub|] == '.')
  }

  const DIGITS := "0123456789"
  const CAPITALS := "ABCDEFGHIJKLMNOPQRSTUVWXYZ"
  const SMALL := "abcdefghijklmnopqrstuvwxyz"

  /** The characters of names are the letters, the digits, the underscore and the period. */
  lemma ValidCharsAre(c: char)
    ensures ValidChar(c) <==> c in DIGITS || c in CAPITALS || c in SMALL || c == '_' || c == '.'
  {
    DigitsAre(c);
    CapitalsAre(c);
    SmallAre(c);
    hide DIGITS, CAPITALS, SMALL;
  }

  lemma DigitsAre(c: char)
    ensures '0' <= c <= '9' <==> c in DIGITS
  {
    if '0' <= c <= '9' {
      assert DIGITS[c as int - '0' as int] == c;
    }
  }

  lemma CapitalsAre(c: char)
    ensures 'A' <= c <= 'Z' <==> c in CAPITALS
  {
    if 'A' <= c <= 'Z' {
      assert CAPITALS[c as int - 'A' as int] == c;
    }
  }

  lemma SmallAre(c: char)
    ensures 'a' <= c <= 'z' <==> c in SMALL
  {
    if 'a' <= c <= 'z' {
      assert SMALL[c as int - 'a' as int] == c;
    }
  }

  /** The names a name covers are itself and what follows it after a period. */
  lemma CoversIff(sub: string, super: string)
    ensures IsSubSymbol(sub, super) <==> super == sub || exists rest :: super == sub + "." + rest
  {
    if sub != super && IsSubSymbol(sub, super) {
      assert super == sub + "." + super[|sub| + 1..];
    }
  }

  /** The order is that of the first difference, a string before its extensions. */
  lemma {:induction false} LessIff(a: string, b: string)
    ensures Less(a, b) <==> a < b || exists k :: 0 <= k < |a| && k < |b| && a[..k] == b[..k] && a[k] < b[k]
    decreases |a|
  {
    if a != "" && b != "" && a[0] == b[0] {
      LessIff(a[1..], b[1..]);
      assert a[1..] < b[1..] ==> a < b;
      assert a < b ==> a[1..] < b[1..];
      if k :| 0 <= k < |a[1..]| && k < |b[1..]| && a[1..][..k] == b[1..][..k] && a[1..][k] < b[1..][k] {
        assert a[..k + 1] == [a[0]] + a[1..][..k] && b[..k + 1] == [b[0]] + b[1..][..k] && a[k + 1] < b[k + 1];
      }
      if k :| 0 <= k < |a| && k < |b| && a[..k] == b[..k] && a[k] < b[k] {
        assert k > 0 && a[1..][..k - 1] == a[..k][1..] && b[1..][..k - 1] == b[..k][1..];
      }
    } else if a != "" && b != "" && a[0] < b[0] {
      assert a[..0] == b[..0];
    } else if a != "" && b != "" && b[0] < a[0] {
      assert forall k :: 0 < k <= |a| && k <= |b| ==> a[..k][0] == a[0] && b[..k][0] == b[0];
    }
  }

  lemma {:induction false} LessIsTotal(a: string, b: string)
    ensures Less(a, b) || a == b || Less(b, a)
    ensures !(Less(a, b) && Less(b, a))
    ensures a == b ==> !Less(a, b)
    decreases |a|
  {
    if a != "" && b != "" {
      LessIsTotal(a[1..], b[1..]);
      if a[0] == b[0] && a[1..] == b[1..] {
        assert a == [a[0]] + a[1..] == b;
      }
    }
  }

  lemma {:induction false} LessIsTransitive(a: string, b: string, c: string)
    requires Less(a, b) && Less(b, c)
    ensures Less(a, c)
    decreases |a|
  {
    if a != "" && a[0] == b[0] == c[0] {
      LessIsTransitive(a[1..], b[1..], c[1..]);
    }
  }

  /** Whatever sorts between a string and one of its extensions extends it too, no later in its next character. */
  lemma {:induction false} BetweenExtensions(m: string, f: string, n: string)
    requires m <= n && !Less(f, m) && !Less(n, f)
    ensures m <= f
    ensures |m| < |f| ==> |m| < |n| && f[|m|] <= n[|m|]
    decreases |m|
  {
    if m != "" {
      assert f != "" && n != "" && n[0] == m[0];
      BetweenExtensions(m[1..], f[1..], n[1..]);
      assert m == [m[0]] + m[1..];
      assert f == [f[0]] + f[1..];
    }
  }

  lemma {:induction false} PrefixIsNotGreater(m: string, n: string)
    requires m <= n
    ensures !Less(n, m)
    decreases |m|
  {
    if m != "" {
      assert n != "" && n[0] == m[0];
      PrefixIsNotGreater(m[1..], n[1..]);
    }
  }

  /** Steps 5 to 8 of the header's proof: a valid name between a parent and its sub-symbol is a sub-symbol of the parent. */
  lemma BetweenIsSubSymbol(m: string, f: string, n: string)
    requires IsSubSymbol(m, n) && ValidName(f)
    requires !Less(f, m) && !Less(n, f)
    ensures IsSubSymbol(m, f)
  {
    BetweenExtensions(m, f, n);
    if |m| < |f| {
      assert ValidChar(f[|m|]);
      if m == n {
        assert false;
      }
    }
  }

  /** Two names that both cover a third are the same or one covers the other. */
  lemma ParentsNest(a: string, b: string, n: string)
    requires IsSubSymbol(a, n) && IsSubSymbol(b, n) && |a| <= |b|
    ensures IsSubSymbol(a, b)
  {
    assert a == n[..|a|] && b == n[..|b|];
  }
}
