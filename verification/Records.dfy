/**
 * The messages as any reader of the Protocol Buffers encoding sees them: records of a field number and a
 * payload, with the numbers and types that Protocol.proto and Struct.proto declare.
 */
module Records {
  import opened Bytes
  import opened Options
  import opened Wire
  import opened Codec

  /** Wire types 0, 5 and 2; the messages use no other. */
  datatype Payload = Number(n: nat) | Bits32(bits: nat) | Chunk(bytes: seq<Byte>)

  datatype Record = Record(field: nat, payload: Payload)

  /** The payload of a record of the given wire type, and what follows it. */
  function ReadPayload(kind: nat, bytes: seq<Byte>): (r: Option<(Payload, seq<Byte>)>)
    ensures r.Some? ==> |r.value.1| <= |bytes|
    ensures r.Some? ==> kind == match r.value.0 case Number(_) => 0 case Chunk(_) => 2 case Bits32(_) => 5
  {
    match kind
    case 0 => (match ReadVarint64(bytes) case None => None case Some(Read(n, rest)) => Some((Number(n), rest)))
    case 2 => (match ReadBlock(bytes) case None => None case Some((block, rest)) => Some((Chunk(block), rest)))
    case 5 => if |bytes| < 4 then None else Some((Bits32(ReadFixed32(bytes)), bytes[4..]))
    case _ => None
  }

  /** A message is a sequence of records, each a tag, which is a field number above a wire type, and a
      payload. */
  function ReadRecords(bytes: seq<Byte>): Option<seq<Record>>
    decreases |bytes|
  {
    if bytes == [] then Some([])
    else
      match ReadTag(bytes)
      case None => None
      case Some(Read(tag, rest)) =>
        if tag == 0 then None
        else
          match ReadPayload(tag % 8, rest)
          case None => None
          case Some((payload, rest)) =>
            match ReadRecords(rest)
            case None => None
            case Some(records) => Some([Record(tag / 8, payload)] + records)
  }

  // ---------------------------------------------------------------- what is written

  function NumberRecords(field: nat, n: nat): seq<Record> {
    if n == 0 then [] else [Record(field, Number(n))]
  }

  /** buffId is field 1, remainTime field 2, victims field 3, packed. */
  function BuffRecords(b: BuffData): seq<Record> {
    NumberRecords(1, b.buffId)
    + (if IsZeroFloat(b.remainTime) then [] else [Record(2, Bits32(b.remainTime))])
    + (if b.victims == [] then [] else [Record(3, Chunk(Varints(b.victims)))])
  }

  function BuffsRecords(buffs: seq<BuffData>): seq<Record> {
    if buffs == [] then [] else [Record(4, Chunk(BuffBytes(buffs[0])))] + BuffsRecords(buffs[1..])
  }

  /** id is field 1, hp field 2, attack field 3, each buff a field 4. */
  function TestRecords(m: STest): seq<Record> {
    NumberRecords(1, m.id) + NumberRecords(2, m.hp) + NumberRecords(3, m.attack) + BuffsRecords(m.buffs)
  }

  /** A record in front of others. */
  lemma FirstRecord(tag: Byte, payload: seq<Byte>, rest: seq<Byte>, read: Payload, records: seq<Record>)
    requires 0 < tag < 128 && ReadPayload(tag % 8, payload + rest) == Some((read, rest))
    requires ReadRecords(rest) == Some(records)
    ensures ReadRecords([tag] + payload + rest) == Some([Record(tag / 8, read)] + records)
  {
    Assoc([tag], payload, rest);
    ReadsBackTag(tag, payload + rest);
    hide ReadTag, ReadPayload;
    assert ReadTag([tag] + payload + rest) == Some(Read(tag, payload + rest));
  }

  lemma NumberIsRecord(tag: Byte, n: nat, rest: seq<Byte>, records: seq<Record>)
    requires 0 < tag < 128 && tag % 8 == 0 && n < TWO64 && ReadRecords(rest) == Some(records)
    ensures ReadRecords(VarintField(tag, n) + rest) == Some(NumberRecords(tag / 8, n) + records)
  {
    if n == 0 {
      assert VarintField(tag, n) + rest == rest;
      assert NumberRecords(tag / 8, n) + records == records;
    } else {
      ReadsBack64(n, rest);
      FirstRecord(tag, Varint(n), rest, Number(n), records);
    }
  }

  lemma ChunkIsRecord(tag: Byte, block: seq<Byte>, rest: seq<Byte>, records: seq<Record>)
    requires 0 < tag < 128 && tag % 8 == 2 && |block| < TWO31 && ReadRecords(rest) == Some(records)
    ensures ReadRecords(Block(tag, block) + rest) == Some([Record(tag / 8, Chunk(block))] + records)
  {
    ReadsBackBlock(block, rest);
    assert Block(tag, block) + rest == [tag] + (Varint(|block|) + block) + rest;
    FirstRecord(tag, Varint(|block|) + block, rest, Chunk(block), records);
  }

  /** What is written for a buff are its fields, by the numbers and types declared. */
  lemma BuffIsItsRecords(b: BuffData)
    requires ValidBuff(b) && |BuffBytes(b)| < TWO31
    ensures ReadRecords(BuffBytes(b)) == Some(BuffRecords(b))
  {
    var f1, f2, f3 := VarintField(8, b.buffId), FloatField(21, b.remainTime), PackedField(26, b.victims);
    var r3 := if b.victims == [] then [] else [Record(3, Chunk(Varints(b.victims)))];
    VictimsWritten(b.victims);
    var r1, r2 := NumberRecords(1, b.buffId), if IsZeroFloat(b.remainTime) then [] else [Record(2, Bits32(b.remainTime))];
    Assoc(f1, f2, f3);
    Assoc(r1, r2, r3);
    hide ReadRecords, Varints, VarintField, FloatField, PackedField, NumberRecords;
    RemainTimeIsRecord(b.remainTime, f3, r3);
    NumberIsRecord(8, b.buffId, f2 + f3, r2 + r3);
  }

  lemma VictimsWritten(ns: seq<nat>)
    requires |PackedField(26, ns)| < TWO31
    ensures ReadRecords(PackedField(26, ns)) == Some(if ns == [] then [] else [Record(3, Chunk(Varints(ns)))])
  {
    assert ReadRecords([]) == Some([]);
    if ns != [] {
      assert |Varint(ns[0])| > 0;
      var f, r := PackedField(26, ns), [Record(3, Chunk(Varints(ns)))];
      assert f + [] == f && r + [] == r;
      hide ReadRecords, Varints;
      ChunkIsRecord(26, Varints(ns), [], []);
    }
  }

  lemma RemainTimeIsRecord(bits: nat, rest: seq<Byte>, records: seq<Record>)
    requires bits < TWO32 && ReadRecords(rest) == Some(records)
    ensures ReadRecords(FloatField(21, bits) + rest)
         == Some((if IsZeroFloat(bits) then [] else [Record(2, Bits32(bits))]) + records)
  {
    if IsZeroFloat(bits) {
      assert FloatField(21, bits) + rest == rest && [] + records == records;
    } else {
      Fixed32ReadsBack(bits, rest);
      assert (Fixed32(bits) + rest)[4..] == rest;
      FirstRecord(21, Fixed32(bits), rest, Bits32(bits), records);
    }
  }

  lemma {:induction false} BuffsAreRecords(buffs: seq<BuffData>)
    requires |BuffsBytes(buffs)| < TWO31
    ensures ReadRecords(BuffsBytes(buffs)) == Some(BuffsRecords(buffs))
  {
    if buffs != [] {
      BlockHolds(34, BuffBytes(buffs[0]));
      BuffsAreRecords(buffs[1..]);
      hide ReadRecords, BuffBytes;
      ChunkIsRecord(34, BuffBytes(buffs[0]), BuffsBytes(buffs[1..]), BuffsRecords(buffs[1..]));
    }
  }

  lemma ToTheRight<T>(a: seq<T>, b: seq<T>, c: seq<T>, d: seq<T>)
    ensures a + b + c + d == a + (b + (c + d))
  {
  }

  /** What is written for a message are its fields that are not zero, by the numbers and types declared. */
  lemma TestIsItsRecords(m: STest)
    requires ValidTest(m) && |TestBytes(m)| < TWO31
    ensures ReadRecords(TestBytes(m)) == Some(TestRecords(m))
  {
    var f1, f2, f3, f4 := VarintField(8, m.id), VarintField(16, m.hp), VarintField(24, m.attack), BuffsBytes(m.buffs);
    var r1, r2, r3, r4 := NumberRecords(1, m.id), NumberRecords(2, m.hp), NumberRecords(3, m.attack), BuffsRecords(m.buffs);
    BuffsAreRecords(m.buffs);
    hide ReadRecords, VarintField, NumberRecords, BuffsBytes, BuffsRecords;
    NumberIsRecord(24, m.attack, f4, r4);
    NumberIsRecord(16, m.hp, f3 + f4, r3 + r4);
    NumberIsRecord(8, m.id, f2 + (f3 + f4), r2 + (r3 + r4));
    ToTheRight(f1, f2, f3, f4);
    ToTheRight(r1, r2, r3, r4);
  }

  // ---------------------------------------------------------------- what is read

  /** A later value of a field replaces an earlier one; victims, packed or not, are appended. */
  function ApplyToBuff(b: BuffData, r: Record): Parsed<BuffData> {
    match (r.field, r.payload)
    case (1, Number(n)) => Parsed(b.(buffId := n))
    case (2, Bits32(bits)) => Parsed(b.(remainTime := bits))
    case (3, Number(n)) => Parsed(b.(victims := b.victims + [n]))
    case (3, Chunk(packed)) =>
      (match ReadVarints(packed) case None => Malformed case Some(ns) => Parsed(b.(victims := b.victims + ns)))
    case _ => UnknownField
  }

  function BuffOf(b: BuffData, records: seq<Record>): Parsed<BuffData>
    decreases |records|
  {
    if records == [] then Parsed(b)
    else
      match ApplyToBuff(b, records[0])
      case Parsed(next) => BuffOf(next, records[1..])
      case failed => failed
  }

  /** Numbers of 32 bits are cut; each buff is a message of its own and appended. */
  function ApplyToTest(m: STest, r: Record): Parsed<STest> {
    match (r.field, r.payload)
    case (1, Number(n)) => Parsed(m.(id := n))
    case (2, Number(n)) => Parsed(m.(hp := n % TWO32))
    case (3, Number(n)) => Parsed(m.(attack := n % TWO32))
    case (4, Chunk(bytes)) =>
      (match ParseBuff(bytes, NEW_BUFF)
       case Parsed(b) => Parsed(m.(buffs := m.buffs + [b]))
       case Malformed => Malformed
       case UnknownField => UnknownField)
    case _ => UnknownField
  }

  function TestOf(m: STest, records: seq<Record>): Parsed<STest>
    decreases |records|
  {
    if records == [] then Parsed(m)
    else
      match ApplyToTest(m, records[0])
      case Parsed(next) => TestOf(next, records[1..])
      case failed => failed
  }

  lemma CutTwice(n: nat)
    ensures n % TWO64 % TWO32 == n % TWO32
  {
    var q, q' := n / TWO64, n % TWO64 / TWO32;
    assert n == TWO32 * (TWO32 * q + q') + n % TWO64 % TWO32;
  }

  lemma Narrow(bytes: seq<Byte>)
    ensures match ReadVarint64(bytes)
            case None => ReadVarint32(bytes).None?
            case Some(Read(n, rest)) => ReadVarint32(bytes) == Some(Read(n % TWO32, rest))
  {
    if ReadVarint(bytes, 10).Some? {
      CutTwice(ReadVarint(bytes, 10).value.value);
    }
  }

  /** Whether a tag and a payload are at the start of the bytes. */
  predicate Begins(bytes: seq<Byte>) {
    bytes != [] && ReadTag(bytes).Some?
    && var Read(tag, rest) := ReadTag(bytes).value; tag != 0 && ReadPayload(tag % 8, rest).Some?
  }

  /** The first record, and what follows it. */
  function First(bytes: seq<Byte>): (r: (Record, seq<Byte>))
    requires Begins(bytes)
    ensures |r.1| < |bytes|
  {
    var Read(tag, rest) := ReadTag(bytes).value;
    var (payload, rest') := ReadPayload(tag % 8, rest).value;
    (Record(tag / 8, payload), rest')
  }

  lemma RecordsAre(bytes: seq<Byte>)
    ensures ReadRecords(bytes) == if bytes == [] then Some([]) else if !Begins(bytes) then None else
              match ReadRecords(First(bytes).1) case None => None case Some(records) => Some([First(bytes).0] + records)
  {
  }

  lemma BuffStep(bytes: seq<Byte>, b: BuffData)
    requires Begins(bytes)
    ensures ParseBuff(bytes, b) == match ApplyToBuff(b, First(bytes).0)
                                   case Parsed(next) => ParseBuff(First(bytes).1, next)
                                   case failed => failed
  {
    var Read(tag, rest) := ReadTag(bytes).value;
    hide ReadVarint64, ReadBlock, ReadTag, ReadVarints, ReadFixed32;
    if tag !in {8, 21, 26, 24} {
      assert tag == 8 * (tag / 8) + tag % 8;
      hide ReadPayload;
    }
  }

  lemma BuffStops(bytes: seq<Byte>, b: BuffData)
    requires bytes != [] && !Begins(bytes)
    ensures !ParseBuff(bytes, b).Parsed?
  {
    if ReadTag(bytes).Some? {
      var Read(tag, rest) := ReadTag(bytes).value;
      if tag in {8, 24} {
        assert ReadPayload(0, rest).None? && ReadVarint64(rest).None?;
      } else if tag == 21 {
        assert ReadPayload(5, rest).None?;
      } else if tag == 26 {
        assert ReadPayload(2, rest).None? && ReadBlock(rest).None?;
      }
      hide ReadVarint64, ReadBlock, ReadTag, ReadVarints, ReadFixed32, ReadPayload;
    }
  }

  /** Whatever the bytes, of whatever serialiser, in whatever order: parsing them as a buff applies their
      records one after the other. */
  lemma {:induction false} BuffParsesItsRecords(bytes: seq<Byte>, b: BuffData)
    ensures match ReadRecords(bytes)
            case Some(records) => ParseBuff(bytes, b) == BuffOf(b, records)
            case None => !ParseBuff(bytes, b).Parsed?
    decreases |bytes|
  {
    RecordsAre(bytes);
    if Begins(bytes) {
      BuffStep(bytes, b);
      hide First, ParseBuff, ReadRecords, ApplyToBuff;
      if ApplyToBuff(b, First(bytes).0).Parsed? {
        BuffParsesItsRecords(First(bytes).1, ApplyToBuff(b, First(bytes).0).message);
      }
    } else if bytes != [] {
      BuffStops(bytes, b);
    }
  }

  lemma TestStep(bytes: seq<Byte>, m: STest)
    requires Begins(bytes)
    ensures ParseTest(bytes, m) == match ApplyToTest(m, First(bytes).0)
                                   case Parsed(next) => ParseTest(First(bytes).1, next)
                                   case failed => failed
  {
    var Read(tag, rest) := ReadTag(bytes).value;
    Narrow(rest);
    hide ReadVarint32, ReadVarint64, ReadBlock, ReadTag, ParseBuff;
    if tag !in {8, 16, 24, 34} {
      assert tag == 8 * (tag / 8) + tag % 8;
      hide ReadPayload;
    }
  }

  lemma TestStops(bytes: seq<Byte>, m: STest)
    requires bytes != [] && !Begins(bytes)
    ensures !ParseTest(bytes, m).Parsed?
  {
    if ReadTag(bytes).Some? {
      var Read(tag, rest) := ReadTag(bytes).value;
      Narrow(rest);
      if tag in {8, 16, 24} {
        assert ReadPayload(0, rest).None? && ReadVarint64(rest).None?;
      } else if tag == 34 {
        assert ReadPayload(2, rest).None? && ReadBlock(rest).None?;
      }
      hide ReadVarint32, ReadVarint64, ReadBlock, ReadTag, ParseBuff, ReadPayload;
    }
  }

  /** And so as a message. */
  lemma {:induction false} TestParsesItsRecords(bytes: seq<Byte>, m: STest)
    ensures match ReadRecords(bytes)
            case Some(records) => ParseTest(bytes, m) == TestOf(m, records)
            case None => !ParseTest(bytes, m).Parsed?
    decreases |bytes|
  {
    RecordsAre(bytes);
    if Begins(bytes) {
      TestStep(bytes, m);
      hide First, ParseTest, ReadRecords, ApplyToTest;
      if ApplyToTest(m, First(bytes).0).Parsed? {
        TestParsesItsRecords(First(bytes).1, ApplyToTest(m, First(bytes).0).message);
      }
    } else if bytes != [] {
      TestStops(bytes, m);
    }
  }
}
