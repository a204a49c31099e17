/** Base 128 varints and little-endian 32-bit values of the Protocol Buffers encoding. */
module Wire {
  import opened Bytes
  import opened Options

  const TWO31: nat := 0x8000_0000
  const TWO32: nat := 0x1_0000_0000
  const TWO64: nat := 0x1_0000_0000_0000_0000

  function Varint(n: nat): seq<Byte> {
    if n < 128 then [n] else [n % 128 + 128] + Varint(n / 128)
  }

  /** UInt64Size, UInt32Size, and Int32Size of a non-negative value. */
  function VarintSize(n: nat): nat {
    if n < 128 then 1 else 1 + VarintSize(n / 128)
  }

  lemma {:induction false} VarintHasItsSize(n: nat)
    ensures |Varint(n)| == VarintSize(n)
  {
    if n >= 128 {
      VarintHasItsSize(n / 128);
    }
  }

  /** The size is the least number of groups of seven bits that hold the number. */
  lemma {:induction false} SizeIsLeast(n: nat)
    ensures n < Pow128(VarintSize(n))
    ensures VarintSize(n) > 1 ==> Pow128(VarintSize(n) - 1) <= n
  {
    if n >= 128 {
      SizeIsLeast(n / 128);
      TimesOf(n / 128, 128, Pow128(VarintSize(n / 128)));
      if VarintSize(n / 128) == 1 {
        assert Pow128(1) == 128;
      }
    }
  }

  lemma TimesOf(a: nat, b: nat, c: nat)
    requires a < c
    ensures a * b + b <= b * c
  {
    assert (a + 1) * b <= c * b;
  }

  /** Each byte holds the next seven bits of the number, least significant first, and all but the last are
      marked as continued. */
  lemma {:induction false} VarintBytes(n: nat, k: nat)
    requires k < |Varint(n)|
    ensures Varint(n)[k] % 128 == n / Pow128(k) % 128
    ensures Varint(n)[k] >= 128 <==> k < |Varint(n)| - 1
  {
    if k > 0 {
      VarintBytes(n / 128, k - 1);
      DivideTwice(n, k);
    }
  }

  lemma DivideTwice(n: nat, k: nat)
    requires k > 0
    ensures n / 128 / Pow128(k - 1) == n / Pow128(k)
  {
    var p := Pow128(k - 1);
    var q, r := n / 128 / p, n / 128 % p;
    assert n == 128 * p * q + (128 * r + n % 128);
    assert 128 * r + n % 128 < 128 * p;
    QuotientIs(n, 128 * p, q, 128 * r + n % 128);
  }

  lemma QuotientIs(n: nat, d: nat, q: nat, r: nat)
    requires 0 < d && n == d * q + r && r < d
    ensures n / d == q
  {
    var q', r' := n / d, n % d;
    assert d * q + r == d * q' + r';
    if q < q' {
      TimesOf(q, d, q');
    } else if q' < q {
      TimesOf(q', d, q);
    }
  }

  /** The number whose groups of seven bits, least significant first, the bytes hold. */
  function Grouped(bytes: seq<Byte>): nat {
    if bytes == [] then 0
    else Grouped(bytes[..|bytes| - 1]) + bytes[|bytes| - 1] % 128 * Pow128(|bytes| - 1)
  }

  lemma {:induction false} GroupedFrom(first: Byte, bytes: seq<Byte>)
    ensures Grouped([first] + bytes) == first % 128 + 128 * Grouped(bytes)
  {
    var all := [first] + bytes;
    if bytes == [] {
      assert all[..0] == [] && Pow128(0) == 1;
    } else {
      var n := |bytes| - 1;
      GroupedFrom(first, bytes[..n]);
      assert all[..|all| - 1] == [first] + bytes[..n];
      assert bytes[n] % 128 * Pow128(n + 1) == 128 * (bytes[n] % 128 * Pow128(n)) by { Thrice(bytes[n] % 128, Pow128(n)); }
    }
  }

  lemma Thrice(a: nat, p: nat)
    ensures a * (128 * p) == 128 * (a * p)
  {
  }

  datatype Read = Read(value: nat, rest: seq<Byte>)

  /** A varint of at most `max` bytes at the start of `bytes`, and what follows it. */
  function ReadVarint(bytes: seq<Byte>, max: nat): (r: Option<Read>)
    ensures r.Some? ==> |r.value.rest| < |bytes|
    decreases max
  {
    if max == 0 || bytes == [] then None
    else if bytes[0] < 128 then Some(Read(bytes[0], bytes[1..]))
    else
      match ReadVarint(bytes[1..], max - 1)
      case None => None
      case Some(Read(high, rest)) => Some(Read(bytes[0] - 128 + 128 * high, rest))
  }

  /** A varint ends with the first byte that is not marked as continued ... */
  lemma {:induction false} ReadVarintIs(bytes: seq<Byte>, max: nat, k: nat)
    requires 0 < k <= max && k <= |bytes| && bytes[k - 1] < 128 && forall j :: 0 <= j < k - 1 ==> bytes[j] >= 128
    ensures ReadVarint(bytes, max) == Some(Read(Grouped(bytes[..k]), bytes[k..]))
    decreases k
  {
    GroupedFrom(bytes[0], bytes[1..k]);
    assert bytes[..k] == [bytes[0]] + bytes[1..k];
    if k == 1 {
      assert bytes[1..1] == [] && Grouped([]) == 0;
    } else {
      hide Grouped;
      ReadVarintIs(bytes[1..], max - 1, k - 1);
      assert bytes[1..][..k - 1] == bytes[1..k] && bytes[1..][k - 1..] == bytes[k..];
    }
  }

  /** ... and there is none if that byte is not among the bytes allowed. */
  lemma {:induction false} ReadVarintNoneIff(bytes: seq<Byte>, max: nat)
    ensures ReadVarint(bytes, max).None? <==> forall j :: 0 <= j < max && j < |bytes| ==> bytes[j] >= 128
    decreases max
  {
    if max > 0 && bytes != [] && bytes[0] >= 128 {
      ReadVarintNoneIff(bytes[1..], max - 1);
      if ReadVarint(bytes, max).None? {
        forall j | 0 <= j < max && j < |bytes|
          ensures bytes[j] >= 128
        {
          assert j > 0 ==> bytes[j] == bytes[1..][j - 1];
        }
      } else {
        var j :| 0 <= j < max - 1 && j < |bytes[1..]| && bytes[1..][j] < 128;
        assert bytes[j + 1] < 128;
      }
    }
  }

  function Pow128(k: nat): (p: nat)
    ensures p > 0
  {
    if k == 0 then 1 else 128 * Pow128(k - 1)
  }

  lemma {:induction false} ReadsBack(n: nat, rest: seq<Byte>, max: nat)
    requires n < Pow128(max) && max > 0
    ensures ReadVarint(Varint(n) + rest, max) == Some(Read(n, rest))
    decreases max
  {
    if n < 128 {
      assert (Varint(n) + rest)[1..] == rest;
    } else {
      assert n / 128 < Pow128(max - 1);
      ReadsBack(n / 128, rest, max - 1);
      assert (Varint(n) + rest)[1..] == Varint(n / 128) + rest;
    }
  }

  lemma Pow128Values()
    ensures Pow128(1) == 128 && TWO32 <= Pow128(5) && TWO64 <= Pow128(10)
  {
    assert Pow128(2) == 0x4000;
    assert Pow128(4) == 0x1000_0000;
    assert Pow128(6) == 0x400_0000_0000;
    assert Pow128(8) == 0x100_0000_0000_0000;
  }

  /** ReadTag: at most five bytes, a 32-bit value. */
  function ReadTag(bytes: seq<Byte>): (r: Option<Read>)
    ensures r.Some? ==> |r.value.rest| < |bytes|
  {
    match ReadVarint(bytes, 5)
    case None => None
    case Some(Read(value, rest)) => Some(Read(value % TWO32, rest))
  }

  function ReadVarint64(bytes: seq<Byte>): (r: Option<Read>)
    ensures r.Some? ==> |r.value.rest| < |bytes| && r.value.value < TWO64
  {
    match ReadVarint(bytes, 10)
    case None => None
    case Some(Read(value, rest)) => Some(Read(value % TWO64, rest))
  }

  function ReadVarint32(bytes: seq<Byte>): (r: Option<Read>)
    ensures r.Some? ==> |r.value.rest| < |bytes| && r.value.value < TWO32
  {
    match ReadVarint(bytes, 10)
    case None => None
    case Some(Read(value, rest)) => Some(Read(value % TWO32, rest))
  }

  /** Tags take five bytes at most, numbers ten; what is beyond 32 or 64 bits is dropped. */
  lemma NumbersAreCut(bytes: seq<Byte>, k: nat)
    requires 0 < k <= |bytes| && bytes[k - 1] < 128 && forall j :: 0 <= j < k - 1 ==> bytes[j] >= 128
    ensures ReadTag(bytes) == if k <= 5 then Some(Read(Grouped(bytes[..k]) % TWO32, bytes[k..])) else None
    ensures ReadVarint32(bytes) == if k <= 10 then Some(Read(Grouped(bytes[..k]) % TWO32, bytes[k..])) else None
    ensures ReadVarint64(bytes) == if k <= 10 then Some(Read(Grouped(bytes[..k]) % TWO64, bytes[k..])) else None
  {
    ReadVarintNoneIff(bytes, 5);
    ReadVarintNoneIff(bytes, 10);
    if k <= 5 {
      ReadVarintIs(bytes, 5, k);
    }
    if k <= 10 {
      ReadVarintIs(bytes, 10, k);
    }
  }

  lemma ReadsBack64(n: nat, rest: seq<Byte>)
    requires n < TWO64
    ensures ReadVarint64(Varint(n) + rest) == Some(Read(n, rest))
  {
    Pow128Values();
    ReadsBack(n, rest, 10);
  }

  lemma ReadsBack32(n: nat, rest: seq<Byte>)
    requires n < TWO32
    ensures ReadVarint32(Varint(n) + rest) == Some(Read(n, rest))
  {
    Pow128Values();
    ReadsBack(n, rest, 10);
  }

  lemma ReadsBackTag(tag: Byte, rest: seq<Byte>)
    requires tag < 128
    ensures ReadTag([tag] + rest) == Some(Read(tag, rest))
  {
    assert ([tag] + rest)[1..] == rest;
  }

  /** A length prefix and the bytes it counts: those bytes, and what follows them. */
  function ReadBlock(bytes: seq<Byte>): (r: Option<(seq<Byte>, seq<Byte>)>)
    ensures r.Some? ==> |r.value.0| < |bytes| && |r.value.1| < |bytes|
  {
    match ReadVarint(bytes, 5)
    case None => None
    case Some(Read(size, rest)) => if size > |rest| then None else Some((rest[..size], rest[size..]))
  }

  lemma ReadsBackBlock(block: seq<Byte>, rest: seq<Byte>)
    requires |block| < TWO31
    ensures ReadBlock(Varint(|block|) + block + rest) == Some((block, rest))
  {
    Pow128Values();
    ReadsBack(|block|, block + rest, 5);
    assert Varint(|block|) + block + rest == Varint(|block|) + (block + rest);
  }

  function Fixed32(bits: nat): seq<Byte> {
    [bits % 256, bits / 256 % 256, bits / 0x1_0000 % 256, bits / 0x100_0000 % 256]
  }

  /** Four bytes, least significant first. */
  lemma Fixed32Bytes(bits: nat)
    requires bits < TWO32
    ensures |Fixed32(bits)| == 4
    ensures var b: seq<int> := Fixed32(bits); b[0] + 0x100 * b[1] + 0x1_0000 * b[2] + 0x100_0000 * b[3] == bits
  {
    assert bits / 256 == bits / 0x1_0000 * 256 + bits / 256 % 256;
    assert bits / 0x1_0000 == bits / 0x100_0000 * 256 + bits / 0x1_0000 % 256;
  }

  function ReadFixed32(bytes: seq<Byte>): (bits: nat)
    requires |bytes| >= 4
    ensures bits < TWO32
  {
    var b0: int, b1: int, b2: int, b3: int := bytes[0], bytes[1], bytes[2], bytes[3];
    b0 + 256 * b1 + 0x1_0000 * b2 + 0x100_0000 * b3
  }

  lemma Fixed32ReadsBack(bits: nat, rest: seq<Byte>)
    requires bits < TWO32
    ensures ReadFixed32(Fixed32(bits) + rest) == bits
  {
    Fixed32Bytes(bits);
  }
}
