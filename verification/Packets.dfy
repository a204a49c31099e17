/**
 * GameServer/ServerPacketHandler.h: the frame writer MakeSendBuffer, the packet dispatch, and the
 * path of a message from the sender's serialiser through TCP segments to the receiver's parser.
 */
module Packets {
  import opened Bytes
  import opened Framing
  import opened Wire
  import opened Codec
  import opened Messages
  import opened Records

  const PKT_S_TEST: nat := 1
  const UINT16: nat := 0x1_0000
  const CHUNK_SIZE: nat := 10000 // SEND_BUFFER_CHUNK_SIZE

  function Field16(n: nat): seq<Byte> {
    [n % 256, n / 256 % 256]
  }

  function FrameOf(id: nat, payload: seq<Byte>): seq<Byte> {
    Field16(|payload| + HEADER) + Field16(id) + payload
  }

  /** What MakeSendBuffer comes to: a frame, a failed ASSERT_CRASH, or, when the 16-bit packet size
      wraps, a payload written past the bytes it opened. */
  datatype Made = Made(frame: seq<Byte>) | Crashed | Overrun

  /** A payload too large for 16 bits is cut, and just below that the header's length wraps the packet size. */
  lemma SizesWrap(n: nat)
    ensures n % UINT16 <= n && (n < UINT16 <==> n % UINT16 == n)
    ensures (n % UINT16 + HEADER) % UINT16 ==
            if n % UINT16 < UINT16 - HEADER then n % UINT16 + HEADER else n % UINT16 + HEADER - UINT16
  {
  }

  method MakeSendBuffer(pkt: TestMessage, pktId: nat) returns (made: Made)
    requires pktId < UINT16 && |TestBytes(pkt.Value())| < TWO31
    modifies pkt`cachedSize, pkt.buffs
    ensures pkt.Value() == old(pkt.Value())
    ensures made.Made? <==> |TestBytes(pkt.Value())| + HEADER <= CHUNK_SIZE
    ensures made.Overrun? <==> UINT16 - HEADER <= |TestBytes(pkt.Value())| < UINT16
    ensures made.Made? ==> made.frame == FrameOf(pktId, TestBytes(pkt.Value()))
  {
    hide TestBytes, Field16;
    var byteSize := pkt.ByteSizeLong();
    var dataSize := byteSize % UINT16;
    var packetSize := (dataSize + HEADER) % UINT16;
    SizesWrap(byteSize);
    if packetSize > CHUNK_SIZE {
      return Crashed; // SendBufferChunk::Open
    }
    var header := Field16(packetSize) + Field16(pktId);
    var payload := pkt.Serialize();
    if |payload| > dataSize {
      return Crashed; // SerializeToArray returns false
    }
    if HEADER + |payload| > packetSize {
      return Overrun;
    }
    return Made(header + payload);
  }

  lemma FrameIsFrame(id: nat, payload: seq<Byte>)
    requires id < UINT16 && |payload| + HEADER < UINT16
    ensures IsFrame(FrameOf(id, payload)) && FrameOf(id, payload)[HEADER..] == payload
    ensures PacketId(FrameOf(id, payload)) == id
    ensures var frame: seq<int> := FrameOf(id, payload);
            frame[0] + 256 * frame[1] == |frame| && frame[2] + 256 * frame[3] == id
  {
    var frame := FrameOf(id, payload);
    assert frame[0] == (|payload| + HEADER) % 256 && frame[1] == (|payload| + HEADER) / 256;
    assert frame[2] == id % 256 && frame[3] == id / 256;
  }

  function PacketId(packet: seq<Byte>): nat
    requires |packet| >= HEADER
  {
    var low: int, high: int := packet[2], packet[3];
    low + 256 * high
  }

  /** HandlePacket: the handler registered for S_TEST gets the parsed message; a packet that does not
      parse, or whose id has no handler, is rejected. */
  datatype Handled = Delivered(message: STest) | Rejected

  function Handle(packet: seq<Byte>): Handled
    requires |packet| >= HEADER
  {
    if PacketId(packet) != PKT_S_TEST then Rejected
    else
      match ParseTest(packet[HEADER..], NEW_TEST)
      case Parsed(m) => Delivered(m)
      case _ => Rejected
  }

  /** A frame hands over a message exactly when its id is that of S_TEST and its payload is records that make up
      the message. */
  lemma HandsOverIff(id: nat, payload: seq<Byte>, m: STest)
    requires id < UINT16 && |payload| + HEADER < UINT16
    ensures Handle(FrameOf(id, payload)) == Delivered(m) <==>
            id == 1 && ReadRecords(payload).Some? && TestOf(NEW_TEST, ReadRecords(payload).value) == Parsed(m)
  {
    FrameIsFrame(id, payload);
    TestParsesItsRecords(payload, NEW_TEST);
    hide ParseTest, TestOf, ReadRecords;
  }

  predicate Sendable(m: STest) {
    ValidTest(m) && |TestBytes(m)| + HEADER <= CHUNK_SIZE
  }

  function FramesOf(messages: seq<STest>): seq<seq<Byte>> {
    if messages == [] then []
    else [FrameOf(PKT_S_TEST, TestBytes(messages[0]))] + FramesOf(messages[1..])
  }

  lemma {:induction false} FrameAt(messages: seq<STest>)
    ensures |FramesOf(messages)| == |messages|
    ensures forall i :: 0 <= i < |messages| ==> FramesOf(messages)[i] == FrameOf(PKT_S_TEST, TestBytes(messages[i]))
  {
    hide FrameOf, TestBytes;
    if messages != [] {
      FrameAt(messages[1..]);
    }
  }

  /** The packet hands over the message, unchanged unless it holds a negative zero, which comes back
      as zero. */
  predicate Carries(packet: seq<Byte>, m: STest) {
    && |packet| >= HEADER
    && Handle(packet) == Delivered(MergeTest(NEW_TEST, m))
    && (Handle(packet) == Delivered(m) <==> NoNegativeZero(m))
  }

  lemma FrameCarries(m: STest)
    requires Sendable(m)
    ensures var frame := FrameOf(PKT_S_TEST, TestBytes(m)); IsFrame(frame) && Carries(frame, m)
  {
    FrameIsFrame(PKT_S_TEST, TestBytes(m));
    ParseIsMerge(m, [], NEW_TEST);
    assert TestBytes(m) + [] == TestBytes(m);
    RoundTripIff(m);
  }

  /** Whatever the segmentation of the stream, the receiver with the intended window and pointer hands
      over exactly the messages whose frames have arrived in full, in order. */
  lemma {:induction false} EndToEnd(messages: seq<STest>, segments: seq<seq<Byte>>)
    requires forall i :: 0 <= i < |messages| ==> Sendable(messages[i])
    requires Starts(Concat(segments), Concat(FramesOf(messages)))
    ensures var packets, k := Run(segments, true).packets, Complete(FramesOf(messages), |Concat(segments)|);
            |packets| == k <= |messages| && forall i :: 0 <= i < k ==> Carries(packets[i], messages[i])
    ensures Concat(segments) == Concat(FramesOf(messages)) ==> |Run(segments, true).packets| == |messages|
  {
    var frames := FramesOf(messages);
    FrameAt(messages);
    forall i | 0 <= i < |frames| ensures IsFrame(frames[i]) && Carries(frames[i], messages[i]) {
      FrameCarries(messages[i]);
    }
    hide Concat, Complete, Run, Starts, TestBytes, IsFrame, Carries, FramesOf;
    IntendedDelivers(frames, segments);
    assert frames[..|frames|] == frames;
    if Concat(segments) == Concat(frames) {
      CompleteUnique(frames, |Concat(segments)|, |frames|);
    }
  }
}
