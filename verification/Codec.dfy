/**
 * The wire format of the application's messages, as values: what GameServer/Struct.pb.cc and
 * GameServer/Protocol.pb.cc write, measure, parse and merge.
 */
module Codec {
  import opened Bytes
  import opened Options
  import opened Wire

  /** `remainTime` is the 32-bit pattern of the float. */
  datatype BuffData = BuffData(buffId: nat, remainTime: nat, victims: seq<nat>)
  datatype STest = STest(id: nat, hp: nat, attack: nat, buffs: seq<BuffData>)

  const NEW_BUFF := BuffData(0, 0, [])
  const NEW_TEST := STest(0, 0, 0, [])

  predicate ValidBuff(b: BuffData) {
    && b.buffId < TWO64 && b.remainTime < TWO32
    && (forall i :: 0 <= i < |b.victims| ==> b.victims[i] < TWO64)
  }

  predicate ValidTest(m: STest) {
    && m.id < TWO64 && m.hp < TWO32 && m.attack < TWO32
    && (forall i :: 0 <= i < |m.buffs| ==> ValidBuff(m.buffs[i]))
  }

  // ---------------------------------------------------------------- what is written

  const NEGATIVE_ZERO: nat := 0x8000_0000

  /** `!(x <= 0 && x >= 0)`: both zeros are left out. */
  predicate IsZeroFloat(bits: nat) {
    bits == 0 || bits == NEGATIVE_ZERO
  }

  function VarintField(tag: Byte, n: nat): seq<Byte> {
    if n != 0 then [tag] + Varint(n) else []
  }

  function FloatField(tag: Byte, bits: nat): seq<Byte> {
    if IsZeroFloat(bits) then [] else [tag] + Fixed32(bits)
  }

  function Varints(ns: seq<nat>): seq<Byte> {
    if ns == [] then [] else Varint(ns[0]) + Varints(ns[1..])
  }

  function Block(tag: Byte, block: seq<Byte>): seq<Byte> {
    [tag] + Varint(|block|) + block
  }

  function PackedField(tag: Byte, ns: seq<nat>): seq<Byte> {
    if Varints(ns) == [] then [] else Block(tag, Varints(ns))
  }

  function BuffBytes(b: BuffData): seq<Byte> {
    VarintField(8, b.buffId) + FloatField(21, b.remainTime) + PackedField(26, b.victims)
  }

  function BuffsBytes(buffs: seq<BuffData>): seq<Byte> {
    if buffs == [] then [] else Block(34, BuffBytes(buffs[0])) + BuffsBytes(buffs[1..])
  }

  function TestBytes(m: STest): seq<Byte> {
    VarintField(8, m.id) + VarintField(16, m.hp) + VarintField(24, m.attack) + BuffsBytes(m.buffs)
  }

  // ---------------------------------------------------------------- MergeFrom

  function MergeBuff(into: BuffData, from: BuffData): BuffData {
    BuffData(if from.buffId != 0 then from.buffId else into.buffId,
             if IsZeroFloat(from.remainTime) then into.remainTime else from.remainTime,
             into.victims + from.victims)
  }

  /** Elements of a repeated field are merged into new elements. */
  function CopyBuffs(buffs: seq<BuffData>): seq<BuffData> {
    if buffs == [] then [] else [MergeBuff(NEW_BUFF, buffs[0])] + CopyBuffs(buffs[1..])
  }

  function MergeTest(into: STest, from: STest): STest {
    STest(if from.id != 0 then from.id else into.id,
          if from.hp != 0 then from.hp else into.hp,
          if from.attack != 0 then from.attack else into.attack,
          into.buffs + CopyBuffs(from.buffs))
  }

  // ---------------------------------------------------------------- what is parsed

  /** A message, bytes that are not one, or a field this model does not know. */
  datatype Parsed<M> = Parsed(message: M) | Malformed | UnknownField

  function ReadVarints(bytes: seq<Byte>): Option<seq<nat>>
    decreases |bytes|
  {
    if bytes == [] then Some([])
    else
      match ReadVarint64(bytes)
      case None => None
      case Some(Read(n, rest)) =>
        match ReadVarints(rest)
        case None => None
        case Some(ns) => Some([n] + ns)
  }

  function ParseBuff(bytes: seq<Byte>, b: BuffData): Parsed<BuffData>
    decreases |bytes|
  {
    if bytes == [] then Parsed(b)
    else
      match ReadTag(bytes)
      case None => Malformed
      case Some(Read(tag, rest)) =>
        if tag == 8 then
          match ReadVarint64(rest)
          case None => Malformed
          case Some(Read(n, rest)) => ParseBuff(rest, b.(buffId := n))
        else if tag == 21 then
          if |rest| < 4 then Malformed
          else ParseBuff(rest[4..], b.(remainTime := ReadFixed32(rest)))
        else if tag == 26 then
          match ReadBlock(rest)
          case None => Malformed
          case Some((block, rest)) =>
            (match ReadVarints(block)
             case None => Malformed
             case Some(ns) => ParseBuff(rest, b.(victims := b.victims + ns)))
        else if tag == 24 then
          match ReadVarint64(rest)
          case None => Malformed
          case Some(Read(n, rest)) => ParseBuff(rest, b.(victims := b.victims + [n]))
        else if tag == 0 || tag % 8 == 4 then Malformed
        else UnknownField
  }

  function ParseTest(bytes: seq<Byte>, m: STest): Parsed<STest>
    decreases |bytes|
  {
    if bytes == [] then Parsed(m)
    else
      match ReadTag(bytes)
      case None => Malformed
      case Some(Read(tag, rest)) =>
        if tag == 8 then
          match ReadVarint64(rest)
          case None => Malformed
          case Some(Read(n, rest)) => ParseTest(rest, m.(id := n))
        else if tag == 16 then
          match ReadVarint32(rest)
          case None => Malformed
          case Some(Read(n, rest)) => ParseTest(rest, m.(hp := n))
        else if tag == 24 then
          match ReadVarint32(rest)
          case None => Malformed
          case Some(Read(n, rest)) => ParseTest(rest, m.(attack := n))
        else if tag == 34 then
          match ReadBlock(rest)
          case None => Malformed
          case Some((block, rest)) =>
            (match ParseBuff(block, NEW_BUFF)
             case Malformed => Malformed
             case UnknownField => UnknownField
             case Parsed(b) => ParseTest(rest, m.(buffs := m.buffs + [b])))
        else if tag == 0 || tag % 8 == 4 then Malformed
        else UnknownField
  }

  // ---------------------------------------------------------------- one field at a time

  lemma {:induction false} VarintsReadBack(ns: seq<nat>)
    requires forall i :: 0 <= i < |ns| ==> ns[i] < TWO64
    ensures ReadVarints(Varints(ns)) == Some(ns)
  {
    if ns != [] {
      ReadsBack64(ns[0], Varints(ns[1..]));
      VarintsReadBack(ns[1..]);
      assert |Varint(ns[0])| > 0 && [ns[0]] + ns[1..] == ns;
    }
  }

  lemma BuffIdParses(n: nat, rest: seq<Byte>, b: BuffData)
    requires n < TWO64
    ensures ParseBuff(VarintField(8, n) + rest, b) == ParseBuff(rest, if n != 0 then b.(buffId := n) else b)
  {
    if n != 0 {
      assert VarintField(8, n) + rest == [8] + (Varint(n) + rest);
      ReadsBackTag(8, Varint(n) + rest);
      ReadsBack64(n, rest);
    } else {
      assert VarintField(8, n) + rest == rest;
    }
  }

  lemma RemainTimeParses(bits: nat, rest: seq<Byte>, b: BuffData)
    requires bits < TWO32
    ensures ParseBuff(FloatField(21, bits) + rest, b) == ParseBuff(rest, if IsZeroFloat(bits) then b else b.(remainTime := bits))
  {
    if IsZeroFloat(bits) {
      assert FloatField(21, bits) + rest == rest;
    } else {
      assert FloatField(21, bits) + rest == [21] + (Fixed32(bits) + rest);
      ReadsBackTag(21, Fixed32(bits) + rest);
      Fixed32ReadsBack(bits, rest);
      assert (Fixed32(bits) + rest)[4..] == rest;
    }
  }

  lemma VictimsParse(ns: seq<nat>, rest: seq<Byte>, b: BuffData)
    requires forall i :: 0 <= i < |ns| ==> ns[i] < TWO64
    requires |Varints(ns)| < TWO31
    ensures ParseBuff(PackedField(26, ns) + rest, b) == ParseBuff(rest, b.(victims := b.victims + ns))
  {
    VarintsReadBack(ns);
    if Varints(ns) == [] {
      assert ns == [];
      assert PackedField(26, ns) + rest == rest && b.victims + ns == b.victims;
    } else {
      var block := Varints(ns);
      assert PackedField(26, ns) + rest == [26] + (Varint(|block|) + block + rest);
      ReadsBackTag(26, Varint(|block|) + block + rest);
      ReadsBackBlock(block, rest);
    }
  }

  /** Parsing what the serialiser wrote for `b`, into any message, merges `b` into it. */
  lemma ParseMergesBuff(b: BuffData, rest: seq<Byte>, into: BuffData)
    requires ValidBuff(b) && |BuffBytes(b)| < TWO31
    ensures ParseBuff(BuffBytes(b) + rest, into) == ParseBuff(rest, MergeBuff(into, b))
  {
    var f1, f2, f3 := VarintField(8, b.buffId), FloatField(21, b.remainTime), PackedField(26, b.victims);
    var into1 := if b.buffId != 0 then into.(buffId := b.buffId) else into;
    var into2 := if IsZeroFloat(b.remainTime) then into1 else into1.(remainTime := b.remainTime);
    assert |Varints(b.victims)| <= |f3|;
    hide ParseBuff, VarintField, FloatField, PackedField, Varints;
    ThreeAndRest(f1, f2, f3, rest);
    BuffIdParses(b.buffId, f2 + (f3 + rest), into);
    RemainTimeParses(b.remainTime, f3 + rest, into1);
    VictimsParse(b.victims, rest, into2);
  }

  lemma ThreeAndRest(a: seq<Byte>, b: seq<Byte>, c: seq<Byte>, d: seq<Byte>)
    ensures a + b + c + d == a + (b + (c + d))
  {
  }

  lemma IdParses(n: nat, rest: seq<Byte>, m: STest)
    requires n < TWO64
    ensures ParseTest(VarintField(8, n) + rest, m) == ParseTest(rest, if n != 0 then m.(id := n) else m)
  {
    if n != 0 {
      assert VarintField(8, n) + rest == [8] + (Varint(n) + rest);
      ReadsBackTag(8, Varint(n) + rest);
      ReadsBack64(n, rest);
    } else {
      assert VarintField(8, n) + rest == rest;
    }
  }

  lemma HpParses(n: nat, rest: seq<Byte>, m: STest)
    requires n < TWO32
    ensures ParseTest(VarintField(16, n) + rest, m) == ParseTest(rest, if n != 0 then m.(hp := n) else m)
  {
    if n != 0 {
      assert VarintField(16, n) + rest == [16] + (Varint(n) + rest);
      ReadsBackTag(16, Varint(n) + rest);
      ReadsBack32(n, rest);
    } else {
      assert VarintField(16, n) + rest == rest;
    }
  }

  lemma AttackParses(n: nat, rest: seq<Byte>, m: STest)
    requires n < TWO32
    ensures ParseTest(VarintField(24, n) + rest, m) == ParseTest(rest, if n != 0 then m.(attack := n) else m)
  {
    if n != 0 {
      assert VarintField(24, n) + rest == [24] + (Varint(n) + rest);
      ReadsBackTag(24, Varint(n) + rest);
      ReadsBack32(n, rest);
    } else {
      assert VarintField(24, n) + rest == rest;
    }
  }

  lemma BuffParses(b: BuffData, rest: seq<Byte>, m: STest)
    requires ValidBuff(b) && |BuffBytes(b)| < TWO31
    ensures ParseTest(Block(34, BuffBytes(b)) + rest, m)
         == ParseTest(rest, m.(buffs := m.buffs + [MergeBuff(NEW_BUFF, b)]))
  {
    var block := BuffBytes(b);
    ParseMergesBuff(b, [], NEW_BUFF);
    assert block + [] == block;
    hide BuffBytes;
    assert Block(34, block) + rest == [34] + (Varint(|block|) + block + rest);
    ReadsBackTag(34, Varint(|block|) + block + rest);
    ReadsBackBlock(block, rest);
  }

  lemma {:induction false} BuffsParse(buffs: seq<BuffData>, rest: seq<Byte>, m: STest)
    requires forall i :: 0 <= i < |buffs| ==> ValidBuff(buffs[i])
    requires |BuffsBytes(buffs)| < TWO31
    ensures ParseTest(BuffsBytes(buffs) + rest, m) == ParseTest(rest, m.(buffs := m.buffs + CopyBuffs(buffs)))
  {
    hide ParseTest, BuffBytes, Block, MergeBuff;
    if buffs == [] {
      assert BuffsBytes(buffs) + rest == rest && m.buffs + CopyBuffs(buffs) == m.buffs;
    } else {
      var head, tail, copy := BuffBytes(buffs[0]), BuffsBytes(buffs[1..]), MergeBuff(NEW_BUFF, buffs[0]);
      var copies := CopyBuffs(buffs[1..]);
      BlockHolds(34, head);
      Assoc(Block(34, head), tail, rest);
      Assoc(m.buffs, [copy], copies);
      hide BuffsBytes, CopyBuffs;
      BuffParses(buffs[0], tail + rest, m);
      BuffsParse(buffs[1..], rest, m.(buffs := m.buffs + [copy]));
    }
  }

  lemma BlockHolds(tag: Byte, block: seq<Byte>)
    ensures |block| < |Block(tag, block)|
  {
  }

  // ---------------------------------------------------------------- the laws

  lemma Regroup(a: seq<Byte>, b: seq<Byte>, c: seq<Byte>, d: seq<Byte>, e: seq<Byte>)
    ensures a + b + c + d + e == a + (b + (c + (d + e)))
  {
  }

  /** Parsing what the serialiser wrote for `m`, into any message, is MergeFrom. */
  lemma ParseIsMerge(m: STest, rest: seq<Byte>, into: STest)
    requires ValidTest(m) && |TestBytes(m)| < TWO31
    ensures ParseTest(TestBytes(m) + rest, into) == ParseTest(rest, MergeTest(into, m))
  {
    var f1, f2, f3 := VarintField(8, m.id), VarintField(16, m.hp), VarintField(24, m.attack);
    var f4 := BuffsBytes(m.buffs);
    Regroup(f1, f2, f3, f4, rest);
    var into1 := if m.id != 0 then into.(id := m.id) else into;
    var into2 := if m.hp != 0 then into1.(hp := m.hp) else into1;
    var into3 := if m.attack != 0 then into2.(attack := m.attack) else into2;
    hide ParseTest, BuffsBytes, VarintField;
    IdParses(m.id, f2 + (f3 + (f4 + rest)), into);
    HpParses(m.hp, f3 + (f4 + rest), into1);
    AttackParses(m.attack, f4 + rest, into2);
    BuffsParse(m.buffs, rest, into3);
  }

  predicate NoNegativeZero(m: STest) {
    forall i :: 0 <= i < |m.buffs| ==> m.buffs[i].remainTime != NEGATIVE_ZERO
  }

  lemma {:induction false} CopyBuffsIsIdentityIff(buffs: seq<BuffData>)
    ensures |CopyBuffs(buffs)| == |buffs|
    ensures CopyBuffs(buffs) == buffs <==> forall i :: 0 <= i < |buffs| ==> buffs[i].remainTime != NEGATIVE_ZERO
  {
    if buffs != [] {
      CopyBuffsIsIdentityIff(buffs[1..]);
      var copy, head := CopyBuffs(buffs), MergeBuff(NEW_BUFF, buffs[0]);
      assert copy[0] == head && copy[1..] == CopyBuffs(buffs[1..]);
      assert head == buffs[0] <==> buffs[0].remainTime != NEGATIVE_ZERO by {
        assert [] + buffs[0].victims == buffs[0].victims;
      }
      assert copy == buffs <==> copy[0] == buffs[0] && copy[1..] == buffs[1..] by {
        assert copy == [copy[0]] + copy[1..] && buffs == [buffs[0]] + buffs[1..];
      }
    }
  }

  /** The round trip gives the message back exactly when no buff's remaining time is negative zero. */
  lemma RoundTripIff(m: STest)
    requires ValidTest(m) && |TestBytes(m)| < TWO31
    ensures ParseTest(TestBytes(m), NEW_TEST).Parsed?
    ensures ParseTest(TestBytes(m), NEW_TEST) == Parsed(m) <==> NoNegativeZero(m)
  {
    ParseIsMerge(m, [], NEW_TEST);
    assert TestBytes(m) + [] == TestBytes(m);
    CopyBuffsIsIdentityIff(m.buffs);
    assert NEW_TEST.buffs + CopyBuffs(m.buffs) == CopyBuffs(m.buffs);
  }

  /** Parsing two serialisations one after the other merges the second message into the first, exactly
      when the first holds no negative zero. */
  lemma ConcatenationIsMergeIff(a: STest, b: STest)
    requires ValidTest(a) && ValidTest(b) && |TestBytes(a)| < TWO31 && |TestBytes(b)| < TWO31
    ensures ParseTest(TestBytes(a) + TestBytes(b), NEW_TEST) == Parsed(MergeTest(a, b)) <==> NoNegativeZero(a)
  {
    var copy := MergeTest(NEW_TEST, a);
    ParseIsMerge(a, TestBytes(b), NEW_TEST);
    ParseIsMerge(b, [], copy);
    assert TestBytes(b) + [] == TestBytes(b);
    CopyBuffsIsIdentityIff(a.buffs);
    hide TestBytes, ParseTest, CopyBuffs;
    assert [] + CopyBuffs(a.buffs) == CopyBuffs(a.buffs);
    SameHead(a.buffs, CopyBuffs(a.buffs), CopyBuffs(b.buffs));
  }

  lemma SameHead<T>(a: seq<T>, b: seq<T>, c: seq<T>)
    requires |a| == |b|
    ensures a + c == b + c <==> a == b
  {
    if a + c == b + c {
      assert a == (a + c)[..|a|] && b == (b + c)[..|a|];
    }
  }
}
