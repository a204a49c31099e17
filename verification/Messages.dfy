/**
 * The generated message classes of GameServer/Struct.pb.cc and GameServer/Protocol.pb.cc: parse,
 * measure, serialise and merge in place, with the sizes that ByteSizeLong caches for the serialiser.
 */
module Messages {
  import opened Bytes
  import opened Wire
  import opened Codec

  datatype Status = Ok | Failed | Unknown

  method WriteVarintField(target: seq<Byte>, tag: Byte, n: nat) returns (out: seq<Byte>)
    ensures out == target + VarintField(tag, n)
  {
    out := target;
    if n != 0 {
      out := out + ([tag] + Varint(n));
    }
  }

  method WriteFloatField(target: seq<Byte>, tag: Byte, bits: nat) returns (out: seq<Byte>)
    ensures out == target + FloatField(tag, bits)
  {
    out := target;
    if !IsZeroFloat(bits) {
      out := out + ([tag] + Fixed32(bits));
    }
  }

  method VarintFieldSize(n: nat) returns (size: nat)
    ensures forall tag :: size == |VarintField(tag, n)|
  {
    size := 0;
    if n != 0 {
      size := 1 + VarintSize(n);
      VarintHasItsSize(n);
    }
  }

  lemma Regroup3(target: seq<Byte>, a: seq<Byte>, b: seq<Byte>, c: seq<Byte>)
    ensures target + a + b + c == target + (a + b + c)
  {
  }

  lemma Regroup4(target: seq<Byte>, a: seq<Byte>, b: seq<Byte>, c: seq<Byte>, d: seq<Byte>)
    ensures target + a + b + c + d == target + (a + b + c + d)
  {
  }

  // ---------------------------------------------------------------- BuffData

  /** What the serialiser writes when the cached size of the packed victims is `cached`. */
  function SerializedWith(b: BuffData, cached: nat): seq<Byte> {
    VarintField(8, b.buffId) + FloatField(21, b.remainTime)
    + if cached > 0 then [26] + Varint(cached) + Varints(b.victims) else []
  }

  lemma {:induction false} VarintInjective(n: nat, m: nat)
    requires Varint(n) == Varint(m)
    ensures n == m
  {
    if n >= 128 && m >= 128 {
      assert Varint(n)[1..] == Varint(n / 128) && Varint(m)[1..] == Varint(m / 128);
      VarintInjective(n / 128, m / 128);
      assert Varint(n)[0] == Varint(m)[0];
    } else {
      assert Varint(n)[0] == Varint(m)[0];
    }
  }

  /** The serialiser is right exactly when ByteSizeLong has measured the present victims. */
  lemma RightIffCacheFresh(b: BuffData, cached: nat)
    ensures SerializedWith(b, cached) == BuffBytes(b) <==> cached == |Varints(b.victims)|
  {
    var head, packed := VarintField(8, b.buffId) + FloatField(21, b.remainTime), Varints(b.victims);
    var written := if cached > 0 then [26] + Varint(cached) + packed else [];
    assert SerializedWith(b, cached)[|head|..] == written;
    assert BuffBytes(b)[|head|..] == PackedField(26, b.victims);
    if cached > 0 && packed != [] && written == PackedField(26, b.victims) {
      var n, m := |Varint(cached)|, |Varint(|packed|)|;
      assert written[1..1 + n] == Varint(cached);
      assert PackedField(26, b.victims)[1..1 + m] == Varint(|packed|);
      VarintInjective(cached, |packed|);
    }
  }

  class BuffMessage {
    var buffId: nat
    var remainTime: nat
    var victims: seq<nat>
    var victimsCachedByteSize: nat
    var cachedSize: nat

    function Value(): BuffData
      reads this`buffId, this`remainTime, this`victims
    {
      BuffData(buffId, remainTime, victims)
    }

    /** ByteSizeLong has run since the last change. */
    ghost predicate Measured()
      reads this
    {
      victimsCachedByteSize == |Varints(victims)| && cachedSize == |BuffBytes(Value())|
    }

    constructor ()
      ensures Value() == NEW_BUFF
    {
      buffId, remainTime, victims, victimsCachedByteSize, cachedSize := 0, 0, [], 0, 0;
    }

    method ByteSizeLong() returns (totalSize: nat)
      requires |BuffBytes(Value())| < TWO31
      modifies this`victimsCachedByteSize, this`cachedSize
      ensures Measured() && totalSize == |BuffBytes(Value())|
    {
      totalSize := 0;
      var dataSize := VictimsSize();
      if dataSize > 0 {
        totalSize := totalSize + 1 + VarintSize(dataSize);
        VarintHasItsSize(dataSize);
      }
      victimsCachedByteSize := dataSize;
      totalSize := totalSize + dataSize;
      if buffId != 0 {
        totalSize := totalSize + 1 + VarintSize(buffId);
        VarintHasItsSize(buffId);
      }
      if !IsZeroFloat(remainTime) {
        totalSize := totalSize + 1 + 4;
      }
      cachedSize := totalSize;
    }

    method VictimsSize() returns (dataSize: nat)
      ensures dataSize == |Varints(victims)|
    {
      dataSize := 0;
      var i := 0;
      while i < |victims|
        invariant 0 <= i <= |victims|
        invariant dataSize + |Varints(victims[i..])| == |Varints(victims)|
      {
        VarintHasItsSize(victims[i]);
        assert victims[i..][1..] == victims[i + 1..];
        dataSize := dataSize + VarintSize(victims[i]);
        i := i + 1;
      }
    }

    method InternalSerialize(target: seq<Byte>) returns (out: seq<Byte>)
      ensures out == target + SerializedWith(Value(), victimsCachedByteSize)
      ensures victimsCachedByteSize == |Varints(victims)| ==> out == target + BuffBytes(Value())
    {
      RightIffCacheFresh(Value(), victimsCachedByteSize);
      out := WriteVarintField(target, 8, buffId);
      out := WriteFloatField(out, 21, remainTime);
      var byteSize := victimsCachedByteSize;
      ghost var packed := if byteSize > 0 then [26] + Varint(byteSize) + Varints(victims) else [];
      Regroup3(target, VarintField(8, buffId), FloatField(21, remainTime), packed);
      hide VarintField, FloatField, Varint, Varints, BuffBytes;
      if byteSize > 0 {
        Regroup3(out, [26], Varint(byteSize), Varints(victims));
        out := WriteVictims(out + [26] + Varint(byteSize));
      }
    }

    method WriteVictims(target: seq<Byte>) returns (out: seq<Byte>)
      ensures out == target + Varints(victims)
    {
      out := target;
      var i := 0;
      while i < |victims|
        invariant 0 <= i <= |victims|
        invariant out + Varints(victims[i..]) == target + Varints(victims)
      {
        assert victims[i..][1..] == victims[i + 1..];
        assert out + Varints(victims[i..]) == out + Varint(victims[i]) + Varints(victims[i + 1..]);
        out := out + Varint(victims[i]);
        i := i + 1;
      }
    }

    method InternalParse(bytes: seq<Byte>) returns (status: Status)
      modifies this`buffId, this`remainTime, this`victims
      ensures match ParseBuff(bytes, old(Value()))
              case Parsed(b) => status == Ok && Value() == b
              case Malformed => status == Failed
              case UnknownField => status == Unknown
    {
      var ptr := bytes;
      while ptr != []
        invariant ParseBuff(ptr, Value()) == ParseBuff(bytes, old(Value()))
        decreases |ptr|
      {
        var tag := ReadTag(ptr);
        if tag.None? {
          return Failed;
        }
        var field := tag.value.value;
        ptr := tag.value.rest;
        if field == 8 {
          var n := ReadVarint64(ptr);
          if n.None? {
            return Failed;
          }
          buffId, ptr := n.value.value, n.value.rest;
        } else if field == 21 {
          if |ptr| < 4 {
            return Failed;
          }
          remainTime, ptr := ReadFixed32(ptr), ptr[4..];
        } else if field == 26 {
          var block := ReadBlock(ptr);
          if block.None? {
            return Failed;
          }
          var ns := ReadVarints(block.value.0);
          if ns.None? {
            return Failed;
          }
          victims, ptr := victims + ns.value, block.value.1;
        } else if field == 24 {
          var n := ReadVarint64(ptr);
          if n.None? {
            return Failed;
          }
          victims, ptr := victims + [n.value.value], n.value.rest;
        } else if field == 0 || field % 8 == 4 {
          return Failed;
        } else {
          return Unknown;
        }
      }
      return Ok;
    }

    method MergeFrom(from: BuffMessage)
      requires from != this
      modifies this`buffId, this`remainTime, this`victims
      ensures Value() == MergeBuff(old(Value()), from.Value())
    {
      victims := victims + from.victims;
      if from.buffId != 0 {
        buffId := from.buffId;
      }
      if !IsZeroFloat(from.remainTime) {
        remainTime := from.remainTime;
      }
    }
  }

  // ---------------------------------------------------------------- S_TEST

  function Values(buffs: seq<BuffMessage>): seq<BuffData>
    reads buffs
  {
    if buffs == [] then [] else [buffs[0].Value()] + Values(buffs[1..])
  }

  lemma {:induction false} ValuesAt(buffs: seq<BuffMessage>)
    ensures |Values(buffs)| == |buffs|
    ensures forall i :: 0 <= i < |buffs| ==> Values(buffs)[i] == buffs[i].Value()
  {
    if buffs != [] {
      ValuesAt(buffs[1..]);
    }
  }

  lemma {:induction false} ValuesAppend(buffs: seq<BuffMessage>, b: BuffMessage)
    ensures Values(buffs + [b]) == Values(buffs) + [b.Value()]
  {
    if buffs == [] {
      assert (buffs + [b])[1..] == [];
    } else {
      assert (buffs + [b])[1..] == buffs[1..] + [b];
      ValuesAppend(buffs[1..], b);
    }
  }

  lemma {:induction false} CopyBuffsAppend(buffs: seq<BuffData>, b: BuffData)
    ensures CopyBuffs(buffs + [b]) == CopyBuffs(buffs) + [MergeBuff(NEW_BUFF, b)]
  {
    if buffs == [] {
      assert (buffs + [b])[1..] == [];
    } else {
      assert (buffs + [b])[1..] == buffs[1..] + [b];
      CopyBuffsAppend(buffs[1..], b);
    }
  }

  /** The bytes of the elements from `i` on start with those of element `i`. */
  lemma BuffsBytesFrom(buffs: seq<BuffData>, i: nat)
    requires i < |buffs|
    ensures BuffsBytes(buffs[i..]) == Block(34, BuffBytes(buffs[i])) + BuffsBytes(buffs[i + 1..])
  {
    assert buffs[i..][1..] == buffs[i + 1..];
  }

  lemma BuffsBytesNone(buffs: seq<BuffData>)
    ensures BuffsBytes(buffs[|buffs|..]) == [] && buffs[0..] == buffs
  {
  }

  /** One element, after its tag. */
  lemma ElementParses(rest: seq<Byte>, m: STest)
    ensures ParseTest([34] + rest, m) ==
            match ReadBlock(rest)
            case None => Malformed
            case Some((block, after)) =>
              match ParseBuff(block, NEW_BUFF)
              case Malformed => Malformed
              case UnknownField => UnknownField
              case Parsed(b) => ParseTest(after, m.(buffs := m.buffs + [b]))
  {
    ReadsBackTag(34, rest);
  }

  /** However tag 34 was encoded, parsing goes on as after the single byte 34. */
  lemma AnyTag34(bytes: seq<Byte>, m: STest)
    requires bytes != [] && ReadTag(bytes).Some? && ReadTag(bytes).value.value == 34
    ensures ParseTest(bytes, m) == ParseTest([34] + ReadTag(bytes).value.rest, m)
  {
    ElementParses(ReadTag(bytes).value.rest, m);
  }

  class TestMessage {
    var id: nat
    var hp: nat
    var attack: nat
    var buffs: seq<BuffMessage>
    var cachedSize: nat

    function Value(): STest
      reads this, buffs
    {
      STest(id, hp, attack, Values(buffs))
    }

    constructor ()
      ensures Value() == NEW_TEST
    {
      id, hp, attack, buffs, cachedSize := 0, 0, 0, [], 0;
    }

    method ByteSizeLong() returns (totalSize: nat)
      requires |TestBytes(Value())| < TWO31
      modifies this`cachedSize, buffs
      ensures Value() == old(Value())
      ensures totalSize == |TestBytes(Value())| == cachedSize
      ensures forall i :: 0 <= i < |buffs| ==> buffs[i].Measured()
    {
      hide BuffsBytes, VarintField;
      totalSize := MeasureBuffs();
      var size := VarintFieldSize(id);
      totalSize := totalSize + size;
      size := VarintFieldSize(hp);
      totalSize := totalSize + size;
      size := VarintFieldSize(attack);
      totalSize := totalSize + size;
      cachedSize := totalSize;
    }

    method MeasureBuffs() returns (totalSize: nat)
      requires |BuffsBytes(Values(buffs))| < TWO31
      modifies buffs
      ensures Values(buffs) == old(Values(buffs))
      ensures totalSize == |BuffsBytes(Values(buffs))|
      ensures forall i :: 0 <= i < |buffs| ==> buffs[i].Measured()
    {
      ghost var values := Values(buffs);
      ValuesAt(buffs);
      BuffsBytesNone(values);
      hide *;
      totalSize := 1 * |buffs|;
      var i := 0;
      while i < |buffs|
        invariant 0 <= i <= |buffs|
        invariant forall j :: 0 <= j < |buffs| ==> buffs[j].Value() == values[j]
        invariant totalSize + |BuffsBytes(values[i..])| == |buffs| - i + |BuffsBytes(values)|
        invariant |BuffsBytes(values[i..])| <= |BuffsBytes(values)|
        invariant forall j :: 0 <= j < i ==> buffs[j].Measured()
      {
        BuffsBytesFrom(values, i);
        var size := MessageSize(i);
        totalSize := totalSize + size;
        i := i + 1;
      }
      ValuesAt(buffs);
      assert Values(buffs) == values;
    }

    /** WireFormatLite::MessageSize of element `i`: the bytes after its tag. */
    method MessageSize(i: nat) returns (size: nat)
      requires i < |buffs| && |Block(34, BuffBytes(buffs[i].Value()))| < TWO31
      modifies buffs
      ensures buffs[i].Measured() && 1 + size == |Block(34, BuffBytes(buffs[i].Value()))|
      ensures forall j :: 0 <= j < |buffs| ==> buffs[j].Value() == old(buffs[j].Value())
      ensures forall j :: 0 <= j < |buffs| && old(buffs[j].Measured()) ==> buffs[j].Measured()
    {
      size := buffs[i].ByteSizeLong();
      VarintHasItsSize(size);
      size := size + VarintSize(size);
    }

    /** Called, as the library does, after ByteSizeLong. */
    method InternalSerialize(target: seq<Byte>) returns (out: seq<Byte>)
      requires forall i :: 0 <= i < |buffs| ==> buffs[i].Measured()
      ensures out == target + TestBytes(Value())
    {
      out := WriteVarintField(target, 8, id);
      out := WriteVarintField(out, 16, hp);
      out := WriteVarintField(out, 24, attack);
      out := WriteBuffs(out);
      hide VarintField, BuffsBytes;
      Regroup4(target, VarintField(8, id), VarintField(16, hp), VarintField(24, attack), BuffsBytes(Values(buffs)));
    }

    method WriteBuffs(target: seq<Byte>) returns (out: seq<Byte>)
      requires forall i :: 0 <= i < |buffs| ==> buffs[i].Measured()
      ensures out == target + BuffsBytes(Values(buffs))
    {
      out := target;
      var i := 0;
      ghost var values := Values(buffs);
      ValuesAt(buffs);
      BuffsBytesNone(values);
      hide *;
      while i < |buffs|
        invariant 0 <= i <= |buffs|
        invariant out + BuffsBytes(values[i..]) == target + BuffsBytes(values)
      {
        BuffsBytesFrom(values, i);
        Regroup3(out, Block(34, BuffBytes(values[i])), BuffsBytes(values[i + 1..]), []);
        out := WriteMessage(out, buffs[i]);
        i := i + 1;
      }
    }

    /** InternalWriteMessage: tag 34, the cached size, the element. */
    static method WriteMessage(target: seq<Byte>, b: BuffMessage) returns (out: seq<Byte>)
      requires b.Measured()
      ensures out == target + Block(34, BuffBytes(b.Value()))
    {
      hide BuffBytes, Varint;
      Regroup3(target, [34], Varint(b.cachedSize), BuffBytes(b.Value()));
      out := b.InternalSerialize(target + [34] + Varint(b.cachedSize));
    }

    /** SerializeToArray: measure, then write. */
    method Serialize() returns (bytes: seq<Byte>)
      requires |TestBytes(Value())| < TWO31
      modifies this`cachedSize, buffs
      ensures Value() == old(Value()) && bytes == TestBytes(Value()) && |bytes| == cachedSize
    {
      var size := ByteSizeLong();
      bytes := InternalSerialize([]);
    }

    /** Parse one element: it is added first, then filled. */
    method ParseElement(block: seq<Byte>) returns (status: Status)
      modifies this`buffs
      ensures match ParseBuff(block, NEW_BUFF)
              case Parsed(b) => status == Ok && Values(buffs) == old(Values(buffs)) + [b]
              case Malformed => status == Failed
              case UnknownField => status == Unknown
    {
      var element := new BuffMessage();
      hide ParseBuff;
      status := element.InternalParse(block);
      ValuesAppend(buffs, element);
      buffs := buffs + [element];
    }

    /** The inner loop of the parser, after a tag 34: while elements follow one another it compares the
        next byte with 34 instead of decoding a tag. */
    method ParseElements(start: seq<Byte>) returns (status: Status, ptr: seq<Byte>)
      modifies this`buffs
      ensures status == Ok ==> ParseTest(ptr, Value()) == ParseTest([34] + start, old(Value())) && |ptr| < |start|
      ensures status == Failed ==> ParseTest([34] + start, old(Value())) == Malformed
      ensures status == Unknown ==> ParseTest([34] + start, old(Value())) == UnknownField
    {
      ghost var goal := ParseTest([34] + start, Value());
      ptr := start;
      hide ParseTest, ParseBuff, ReadBlock, Values;
      while true
        invariant ParseTest([34] + ptr, Value()) == goal && |ptr| <= |start|
        decreases |ptr|
      {
        ElementParses(ptr, Value());
        var block := ReadBlock(ptr);
        if block.None? {
          return Failed, ptr;
        }
        ptr := block.value.1;
        status := ParseElement(block.value.0);
        if status != Ok || ptr == [] || ptr[0] != 34 {
          return;
        }
        assert ptr == [34] + ptr[1..];
        ptr := ptr[1..];
      }
    }

    method InternalParse(bytes: seq<Byte>) returns (status: Status)
      modifies this`id, this`hp, this`attack, this`buffs
      ensures match ParseTest(bytes, old(Value()))
              case Parsed(m) => status == Ok && Value() == m
              case Malformed => status == Failed
              case UnknownField => status == Unknown
    {
      ghost var goal := ParseTest(bytes, Value());
      hide ParseBuff, ReadVarint32, ReadVarint64, ReadTag, ReadBlock, Values;
      var ptr := bytes;
      while ptr != []
        invariant ParseTest(ptr, Value()) == goal
        decreases |ptr|
      {
        var tag := ReadTag(ptr);
        if tag.None? {
          return Failed;
        }
        var field := tag.value.value;
        if field == 34 {
          AnyTag34(ptr, Value());
          status, ptr := ParseElements(tag.value.rest);
          if status != Ok {
            return;
          }
        } else if field == 8 {
          var n := ReadVarint64(tag.value.rest);
          if n.None? {
            return Failed;
          }
          id, ptr := n.value.value, n.value.rest;
        } else if field == 16 || field == 24 {
          var n := ReadVarint32(tag.value.rest);
          if n.None? {
            return Failed;
          }
          if field == 16 {
            hp := n.value.value;
          } else {
            attack := n.value.value;
          }
          ptr := n.value.rest;
        } else if field == 0 || field % 8 == 4 {
          return Failed;
        } else {
          return Unknown;
        }
      }
      return Ok;
    }

    /** Append a copy of an element: a new element, merged from it. */
    method AddCopy(from: BuffMessage)
      modifies this`buffs
      ensures Values(buffs) == old(Values(buffs)) + [MergeBuff(NEW_BUFF, from.Value())]
    {
      var copy := new BuffMessage();
      copy.MergeFrom(from);
      ValuesAppend(buffs, copy);
      buffs := buffs + [copy];
    }

    method MergeFrom(from: TestMessage)
      requires from != this
      modifies this`id, this`hp, this`attack, this`buffs
      ensures Value() == MergeTest(old(Value()), from.Value())
    {
      MergeBuffs(from);
      MergeScalars(from);
      hide Values, CopyBuffs, MergeBuff;
    }

    method MergeScalars(from: TestMessage)
      requires from != this
      modifies this`id, this`hp, this`attack
      ensures id == if from.id != 0 then from.id else old(id)
      ensures hp == if from.hp != 0 then from.hp else old(hp)
      ensures attack == if from.attack != 0 then from.attack else old(attack)
    {
      if from.id != 0 {
        id := from.id;
      }
      if from.hp != 0 {
        hp := from.hp;
      }
      if from.attack != 0 {
        attack := from.attack;
      }
    }

    method MergeBuffs(from: TestMessage)
      requires from != this
      modifies this`buffs
      ensures Values(buffs) == old(Values(buffs)) + CopyBuffs(Values(from.buffs))
    {
      ghost var into, source := Values(buffs), Values(from.buffs);
      assert CopyBuffs(source[..0]) == [];
      ValuesAt(from.buffs);
      hide *;
      var i := 0;
      while i < |from.buffs|
        invariant 0 <= i <= |from.buffs|
        invariant from.buffs == old(from.buffs) && Values(from.buffs) == source
        invariant Values(buffs) == into + CopyBuffs(source[..i])
      {
        AddCopy(from.buffs[i]);
        CopyBuffsAppend(source[..i], source[i]);
        assert source[..i + 1] == source[..i] + [source[i]];
        i := i + 1;
      }
      assert source[..|from.buffs|] == source;
    }
  }
}
