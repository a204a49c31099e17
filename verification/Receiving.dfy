/**
 * The receive path of a session: the compacting buffer of ServerCore/RecvBuffer.cpp, and
 * Session::ProcessRecv with PacketSession::OnRecv of ServerCore/Session.cpp.
 */
module Receiving {
  import opened Bytes
  import opened Framing

  /** What Clean makes of the cursors, or that its memcpy would run on overlapping ranges, which is
      undefined. */
  datatype Cleaned = Cursors(readPos: nat, writePos: nat) | Overlaps

  function CleanedFrom(readPos: nat, writePos: nat, bufferSize: nat, capacity: nat): Cleaned
    requires readPos <= writePos <= capacity
  {
    var dataSize := writePos - readPos;
    if dataSize == 0 then Cursors(0, 0)
    else if capacity - writePos >= bufferSize then Cursors(readPos, writePos)
    else if readPos < dataSize then Overlaps
    else Cursors(0, dataSize)
  }

  class RecvBuffer {
    const bufferSize: nat
    const capacity: nat
    const buffer: array<Byte>
    var readPos: nat
    var writePos: nat

    ghost predicate Valid()
      reads this
    {
      capacity == 10 * bufferSize == buffer.Length && readPos <= writePos <= capacity
    }

    function DataSize(): nat
      requires Valid()
      reads this
    {
      writePos - readPos
    }

    function FreeSize(): nat
      requires Valid()
      reads this
    {
      capacity - writePos
    }

    ghost function Unread(): seq<Byte>
      requires Valid()
      reads this, buffer
    {
      buffer[readPos..writePos]
    }

    /** The bytes an operating system call has just put behind the unread ones. */
    ghost function Arrived(n: nat): seq<Byte>
      requires Valid() && n <= FreeSize()
      reads this, buffer
    {
      buffer[writePos..writePos + n]
    }

    /** The bytes OnRecv is shown after a completion of `n` bytes, which OnWrite refuses when they are more
        than there is room for; as written they may then reach beyond the buffer. */
    ghost predicate Beyond(n: nat, fixed: bool)
      requires Valid()
      reads this
    {
      !fixed && n > FreeSize() && readPos + n > capacity
    }

    ghost function Shown(n: nat, fixed: bool): seq<Byte>
      requires Valid()
      reads this, buffer
    {
      if n <= FreeSize() then Window(Unread(), Arrived(n), fixed)
      else if fixed then Unread()
      else if Beyond(n, fixed) then []
      else buffer[readPos..readPos + n]
    }

    ghost function WriteAfter(n: nat): nat
      requires Valid()
      reads this
    {
      if n <= FreeSize() then writePos + n else writePos
    }

    /** The unread bytes after the completion, before OnRecv consumes any. */
    ghost function Taken(n: nat): seq<Byte>
      requires Valid()
      reads this, buffer
    {
      if n <= FreeSize() then Unread() + Arrived(n) else Unread()
    }

    /** A segment put where WSARecv puts it is what arrives. */
    lemma SegmentArrives(segment: seq<Byte>, fixed: bool)
      requires Valid() && |segment| <= FreeSize() && buffer[writePos..writePos + |segment|] == segment
      ensures !Beyond(|segment|, fixed) && WriteAfter(|segment|) == writePos + |segment|
      ensures Shown(|segment|, fixed) == Window(Unread(), segment, fixed) && Taken(|segment|) == Unread() + segment
    {
    }

    constructor (bufferSize: nat)
      ensures Valid() && this.bufferSize == bufferSize && Unread() == [] && readPos == writePos == 0 && fresh(buffer)
    {
      this.bufferSize := bufferSize;
      capacity := bufferSize * 10;
      buffer := new Byte[bufferSize * 10](_ => 0);
      readPos, writePos := 0, 0;
    }

    /** Clean.  `overlaps` tells that the memcpy would run on overlapping ranges. */
    method Clean() returns (overlaps: bool)
      requires Valid()
      modifies this`readPos, this`writePos, buffer
      ensures var cleaned := CleanedFrom(old(readPos), old(writePos), bufferSize, capacity);
              if overlaps then cleaned.Overlaps? else Cursors(readPos, writePos) == cleaned
      ensures overlaps <==> old(0 < DataSize() && FreeSize() < bufferSize && readPos < DataSize())
      ensures !overlaps ==> Valid() && Unread() == old(Unread())
      ensures old(DataSize()) == 0 ==> readPos == writePos == 0 && FreeSize() == capacity
      ensures old(DataSize() > 0 && FreeSize() >= bufferSize) ==> readPos == old(readPos) && writePos == old(writePos)
      ensures old(DataSize() > 0 && FreeSize() < bufferSize) && !overlaps ==> readPos == 0 && writePos == old(DataSize())
      ensures old(DataSize()) < bufferSize ==> !overlaps && FreeSize() >= bufferSize
    {
      overlaps := false;
      var dataSize := DataSize();
      if dataSize == 0 {
        readPos, writePos := 0, 0;
      } else if FreeSize() < bufferSize {
        if readPos < dataSize {
          return true;
        }
        forall i | 0 <= i < dataSize {
          buffer[i] := buffer[readPos + i];
        }
        readPos, writePos := 0, dataSize;
      }
    }

    method OnRead(numOfBytes: nat) returns (ok: bool)
      requires Valid()
      modifies this`readPos
      ensures Valid() && ok == (numOfBytes <= old(DataSize()))
      ensures readPos == old(readPos) + if ok then numOfBytes else 0
      ensures Unread() == if ok then old(Unread())[numOfBytes..] else old(Unread())
    {
      if numOfBytes > DataSize() {
        return false;
      }
      readPos := readPos + numOfBytes;
      return true;
    }

    /** The operating system has put `numOfBytes` bytes at WritePos. */
    method OnWrite(numOfBytes: nat) returns (ok: bool)
      requires Valid()
      modifies this`writePos
      ensures Valid() && ok == (numOfBytes <= old(FreeSize()))
      ensures ok ==> Unread() == old(Unread()) + buffer[old(writePos)..old(writePos) + numOfBytes]
      ensures !ok ==> writePos == old(writePos)
    {
      if numOfBytes > FreeSize() {
        return false;
      }
      writePos := writePos + numOfBytes;
      return true;
    }

    /** The bytes from ReadPos on. */
    method FromReadPos(len: nat) returns (view: seq<Byte>)
      requires Valid() && readPos + len <= capacity
      ensures view == buffer[readPos..readPos + len]
      ensures len <= DataSize() ==> view == Unread()[..len]
    {
      view := buffer[readPos..readPos + len];
    }

    /** What WSARecv does with the window RegisterRecv gave it. */
    method Fill(segment: seq<Byte>)
      requires Valid() && |segment| <= FreeSize()
      modifies buffer
      ensures Unread() == old(Unread())
      ensures buffer[writePos..writePos + |segment|] == segment
    {
      forall i | 0 <= i < |segment| {
        buffer[writePos + i] := segment[i];
      }
    }
  }

  /** How a call of ProcessRecv ends: it goes on to register the next receive, it disconnects and returns,
      its parse loop does not end, it reads beyond the buffer, or Clean copies overlapping ranges. */
  datatype Outcome = Waiting | Disconnected | Hung | Overread | Overlapping

  class PacketSession {
    const recvBuffer: RecvBuffer
    var connected: bool
    /** What OnRecvPacket has been given, in order. */
    var packets: seq<seq<Byte>>

    /** Connected, and nothing received yet. */
    ghost predicate Fresh()
      reads this, recvBuffer
    {
      recvBuffer.Valid() && recvBuffer.readPos == recvBuffer.writePos == 0 && packets == [] && connected
    }

    constructor (bufferSize: nat)
      ensures Fresh() && recvBuffer.bufferSize == bufferSize
    {
      recvBuffer := new RecvBuffer(bufferSize);
      packets, connected := [], true;
    }

    /** OnRecv over the bytes its pointer and length designate; it only reads them. */
    method OnRecv(buffer: seq<Byte>, fixed: bool) returns (processLen: nat, stuck: bool)
      modifies this`packets
      ensures stuck == Scan(buffer).stuck
      ensures processLen == Sum(Scan(buffer).sizes) <= |buffer|
      ensures packets == old(packets) + Packets(buffer, 0, Scan(buffer).sizes, fixed)
    {
      ghost var sizes: seq<nat> := [];
      processLen, stuck := 0, false;
      NothingYet(buffer, fixed);
      hide *;
      while true
        invariant ScannedTo(buffer, processLen, sizes)
        invariant processLen <= |buffer| && Sum(sizes) == processLen
        invariant packets == old(packets) + Packets(buffer, 0, sizes, fixed)
        decreases |buffer| - processLen
      {
        var dataSize := |buffer| - processLen;
        if dataSize < HEADER {
          ScanEnds(buffer, processLen, sizes);
          break;
        }
        var size := SizeField(buffer[processLen..]);
        if dataSize < size {
          ScanEnds(buffer, processLen, sizes);
          break;
        }
        if size == 0 {
          // the loop would report an empty packet again and again
          ScanEnds(buffer, processLen, sizes);
          stuck := true;
          break;
        }
        var from := if fixed then processLen else 0;
        packets := packets + [buffer[from..from + size]];
        ScanGoesOn(buffer, processLen, sizes, fixed);
        sizes := sizes + [size];
        processLen := processLen + size;
      }
    }

    /** The first part of ProcessRecv: the write cursor moves if there was room, and the bytes for OnRecv
        are designated. */
    method TakeIn(numOfBytes: nat, fixed: bool) returns (view: seq<Byte>, beyond: bool)
      requires recvBuffer.Valid()
      modifies this`connected, recvBuffer`writePos
      ensures recvBuffer.Valid() && recvBuffer.Unread() == old(recvBuffer.Taken(numOfBytes))
      ensures connected == (old(connected) && numOfBytes <= old(recvBuffer.FreeSize()))
      ensures beyond == old(recvBuffer.Beyond(numOfBytes, fixed))
      ensures view == old(recvBuffer.Shown(numOfBytes, fixed))
      ensures recvBuffer.readPos == old(recvBuffer.readPos) && recvBuffer.writePos == old(recvBuffer.WriteAfter(numOfBytes))
    {
      var written := recvBuffer.OnWrite(numOfBytes);
      if !written {
        connected := false; // Disconnect, without returning
      }
      var dataSize := recvBuffer.DataSize();
      var len := if fixed then dataSize else numOfBytes;
      if recvBuffer.readPos + len > recvBuffer.capacity {
        return [], true;
      }
      view := recvBuffer.FromReadPos(len);
      beyond := false;
    }

    /** How consuming `processLen` of the bytes `taken`, which lay between the two cursors, has ended: the
        rest is unread where Clean leaves it, or Clean copies overlapping ranges. */
    ghost predicate Consumed(outcome: Outcome, readPos: nat, writePos: nat, taken: seq<Byte>, processLen: nat)
      reads recvBuffer, recvBuffer.buffer
    {
      && readPos + |taken| == writePos <= recvBuffer.capacity && processLen <= |taken|
      && outcome in {Waiting, Overlapping}
      && var cleaned := CleanedFrom(readPos + processLen, writePos, recvBuffer.bufferSize, recvBuffer.capacity);
         if outcome.Overlapping? then cleaned.Overlaps?
         else recvBuffer.Valid() && Cursors(recvBuffer.readPos, recvBuffer.writePos) == cleaned
              && recvBuffer.Unread() == taken[processLen..]
    }

    /** With nothing left unread the whole buffer is free. */
    lemma AllFreeAfter(outcome: Outcome, readPos: nat, writePos: nat, taken: seq<Byte>, processLen: nat)
      requires Consumed(outcome, readPos, writePos, taken, processLen)
      ensures outcome.Waiting? ==> recvBuffer.Valid() && EmptyIsFree()
    {
    }

    ghost predicate EmptyIsFree()
      requires recvBuffer.Valid()
      reads this, recvBuffer, recvBuffer.buffer
    {
      recvBuffer.Unread() == [] ==> recvBuffer.FreeSize() == recvBuffer.capacity
    }

    /** With less than a buffer left, the copy is safe and a whole buffer is free. */
    lemma RoomAfter(outcome: Outcome, readPos: nat, writePos: nat, taken: seq<Byte>, processLen: nat)
      requires Consumed(outcome, readPos, writePos, taken, processLen) && recvBuffer.capacity == 10 * recvBuffer.bufferSize
      requires |taken| - processLen < recvBuffer.bufferSize
      ensures outcome.Waiting? && recvBuffer.Valid() && recvBuffer.FreeSize() >= recvBuffer.bufferSize
    {
    }

    /** The last part of ProcessRecv: the read cursor moves and the buffer is compacted. */
    method Consume(processLen: nat) returns (outcome: Outcome)
      requires recvBuffer.Valid()
      modifies this`connected, recvBuffer`readPos, recvBuffer`writePos, recvBuffer.buffer
      ensures outcome in {Waiting, Overlapping, Disconnected}
      ensures processLen > old(recvBuffer.DataSize()) ==> outcome == Disconnected && !connected
      ensures processLen <= old(recvBuffer.DataSize()) ==>
                connected == old(connected)
                && Consumed(outcome, old(recvBuffer.readPos), old(recvBuffer.writePos), old(recvBuffer.Unread()), processLen)
    {
      hide CleanedFrom;
      var consumed := false;
      if processLen <= recvBuffer.DataSize() {
        consumed := recvBuffer.OnRead(processLen);
      }
      if !consumed {
        connected := false;
        return Disconnected;
      }
      var overlaps := recvBuffer.Clean();
      return if overlaps then Overlapping else Waiting;
    }

    /** Session::ProcessRecv, whatever the completion reports. */
    method ProcessRecv(numOfBytes: nat, fixed: bool) returns (outcome: Outcome)
      requires recvBuffer.Valid()
      modifies this, recvBuffer`readPos, recvBuffer`writePos, recvBuffer.buffer
      ensures connected == (old(connected) && 0 < numOfBytes <= old(recvBuffer.FreeSize()))
      ensures numOfBytes == 0 ==> outcome == Disconnected && packets == old(packets)
      ensures numOfBytes > 0 ==>
                var shown, taken := old(recvBuffer.Shown(numOfBytes, fixed)), old(recvBuffer.Taken(numOfBytes));
                && packets == old(packets) + Reported(shown, fixed)
                && (outcome.Overread? <==> old(recvBuffer.Beyond(numOfBytes, fixed)))
                && (outcome.Hung? <==> Scan(shown).stuck)
                && (!outcome.Overread? && !outcome.Hung? ==>
                      if Sum(Scan(shown).sizes) > |taken| then outcome.Disconnected?
                      else Consumed(outcome, old(recvBuffer.readPos), old(recvBuffer.WriteAfter(numOfBytes)), taken,
                                    Sum(Scan(shown).sizes)))
      ensures outcome.Waiting? ==> recvBuffer.Valid() && EmptyIsFree()
    {
      hide Consumed;
      if numOfBytes == 0 {
        connected := false;
        return Disconnected;
      }
      var view, beyond := TakeIn(numOfBytes, fixed);
      ScanRemainder(view);
      if beyond {
        return Overread;
      }
      hide Scan, Packets, Sum;
      var processLen, stuck := OnRecv(view, fixed);
      if stuck {
        return Hung;
      }
      assert |recvBuffer.Unread()| == recvBuffer.DataSize();
      ghost var read, write, taken := recvBuffer.readPos, recvBuffer.writePos, recvBuffer.Unread();
      outcome := Consume(processLen);
      if outcome.Waiting? {
        AllFreeAfter(outcome, read, write, taken, processLen);
      }
    }

    /** A segment arrives in the window that RegisterRecv gave to WSARecv, and is processed. */
    method ReceiveSegment(segment: seq<Byte>, fixed: bool) returns (outcome: Outcome)
      requires recvBuffer.Valid() && 0 < |segment| <= recvBuffer.FreeSize()
      modifies this, recvBuffer`readPos, recvBuffer`writePos, recvBuffer.buffer
      ensures connected == old(connected)
      ensures var shown := Window(old(recvBuffer.Unread()), segment, fixed);
              && packets == old(packets) + Reported(shown, fixed)
              && if Scan(shown).stuck then outcome == Hung
                 else Consumed(outcome, old(recvBuffer.readPos), old(recvBuffer.writePos) + |segment|,
                               old(recvBuffer.Unread()) + segment, Sum(Scan(shown).sizes))
      ensures outcome.Waiting? ==> recvBuffer.Valid() && EmptyIsFree()
    {
      ScanRemainder(Window(recvBuffer.Unread(), segment, fixed));
      hide Scan, Packets, Sum, Reported, Consumed, Window, RecvBuffer.Shown, RecvBuffer.Taken, RecvBuffer.Beyond, RecvBuffer.WriteAfter;
      recvBuffer.Fill(segment);
      recvBuffer.SegmentArrives(segment, fixed);
      outcome := ProcessRecv(|segment|, fixed);
    }

    /** With the intended window, one segment that does not make OnRecv hang leaves room for the next. */
    method ReceiveNext(segment: seq<Byte>) returns (outcome: Outcome)
      requires recvBuffer.Valid() && recvBuffer.bufferSize > MAX_SIZE && 0 < |segment| <= recvBuffer.FreeSize()
      requires !Scan(Window(recvBuffer.Unread(), segment, true)).stuck
      modifies this, recvBuffer`readPos, recvBuffer`writePos, recvBuffer.buffer
      ensures outcome == Waiting && connected == old(connected)
      ensures recvBuffer.Valid() && recvBuffer.FreeSize() >= recvBuffer.bufferSize && EmptyIsFree()
      ensures var received := Receive(old(recvBuffer.Unread()), segment, true);
              packets == old(packets) + received.packets && recvBuffer.Unread() == received.unread
    {
      ghost var taken := recvBuffer.Unread() + segment;
      ghost var read, write := recvBuffer.readPos, recvBuffer.writePos;
      ScanRemainder(taken);
      hide Scan, Sum, Reported, Packets;
      outcome := ReceiveSegment(segment, true);
      RoomAfter(outcome, read, write + |segment|, taken, Sum(Scan(taken).sizes));
    }

    /** As written, one segment that does not make OnRecv hang is received as Framing has it, unless what is
        left unread is a buffer or more. */
    method ReceiveOn(segment: seq<Byte>) returns (outcome: Outcome)
      requires recvBuffer.Valid() && 0 < |segment| <= recvBuffer.FreeSize()
      requires !Scan(Window(recvBuffer.Unread(), segment, false)).stuck
      modifies this, recvBuffer`readPos, recvBuffer`writePos, recvBuffer.buffer
      ensures outcome in {Waiting, Overlapping} && connected == old(connected)
      ensures var received := Receive(old(recvBuffer.Unread()), segment, false);
              && packets == old(packets) + received.packets
              && (outcome.Waiting? ==> recvBuffer.Valid() && recvBuffer.Unread() == received.unread && EmptyIsFree())
              && (outcome.Overlapping? ==> |received.unread| >= recvBuffer.bufferSize)
    {
      ghost var taken := recvBuffer.Unread() + segment;
      ghost var read, write := recvBuffer.readPos, recvBuffer.writePos;
      ghost var shown := Window(recvBuffer.Unread(), segment, false);
      ScanRemainder(shown);
      hide Scan, Sum, Reported, Packets;
      outcome := ReceiveSegment(segment, false);
      if |taken| - Sum(Scan(shown).sizes) < recvBuffer.bufferSize {
        RoomAfter(outcome, read, write + |segment|, taken, Sum(Scan(shown).sizes));
      }
    }

    /** With the intended window and pointer: as long as every segment fits the room that RegisterRecv offers
        for it, which is never less than one buffer, the receive buffer goes on receiving, and what has been
        delivered is the frames completed so far. */
    method ReceiveAll(segments: seq<seq<Byte>>, ghost frames: seq<seq<Byte>>) returns (outcome: Outcome, done: nat)
      requires Fresh() && recvBuffer.bufferSize > MAX_SIZE
      requires forall i :: 0 <= i < |segments| ==> segments[i] != []
      requires AreFrames(frames) && Starts(Concat(segments), Concat(frames))
      modifies this, recvBuffer`readPos, recvBuffer`writePos, recvBuffer.buffer
      ensures outcome == Waiting && connected && recvBuffer.Valid()
      ensures recvBuffer.FreeSize() >= recvBuffer.bufferSize
      ensures recvBuffer.Unread() == [] ==> recvBuffer.FreeSize() == recvBuffer.capacity
      ensures done <= |segments| && (done < |segments| ==> |segments[done]| > recvBuffer.FreeSize())
      ensures packets == frames[..Complete(frames, |Concat(segments[..done])|)]
      ensures recvBuffer.Unread() == Run(segments[..done], true).unread
    {
      outcome := Waiting;
      assert segments[..0] == [];
      assert Run([], true) == Received([], []);
      hide Scan, Packets, Sum, Receive, Concat, Complete, Starts, AreFrames, Window;
      done := 0;
      while done < |segments| && |segments[done]| <= recvBuffer.FreeSize()
        invariant 0 <= done <= |segments| && outcome == Waiting && connected
        invariant recvBuffer.Valid() && recvBuffer.FreeSize() >= recvBuffer.bufferSize && EmptyIsFree()
        invariant Received(recvBuffer.Unread(), packets) == Run(segments[..done], true)
        decreases |segments| - done
      {
        NeverHangs(frames, segments, done, true);
        RunStep(segments, done, true);
        outcome := ReceiveNext(segments[done]);
        done := done + 1;
      }
      PartStarts(frames, segments, done);
      IntendedDelivers(frames, segments[..done]);
    }

    /** As written, on a stream of frames and as long as every segment fits the room offered for it: OnRecv
        neither hangs nor disconnects, the packets are those of the run, and while the buffer is waiting the
        bytes received are the frames reported and the unread bytes.  Clean copies overlapping ranges only
        with a buffer or more unread. */
    method ReceiveAllAsWritten(segments: seq<seq<Byte>>, ghost frames: seq<seq<Byte>>) returns (outcome: Outcome, done: nat)
      requires Fresh()
      requires forall i :: 0 <= i < |segments| ==> segments[i] != []
      requires AreFrames(frames) && Starts(Concat(segments), Concat(frames))
      modifies this, recvBuffer`readPos, recvBuffer`writePos, recvBuffer.buffer
      ensures outcome in {Waiting, Overlapping} && connected && done <= |segments|
      ensures packets == Run(segments[..done], false).packets
      ensures |packets| <= Complete(frames, |Concat(segments[..done])|)
      ensures Concat(segments[..done]) == Concat(frames[..|packets|]) + Run(segments[..done], false).unread
      ensures outcome.Waiting? ==>
                && recvBuffer.Valid() && recvBuffer.Unread() == Run(segments[..done], false).unread
                && (recvBuffer.Unread() == [] ==> recvBuffer.FreeSize() == recvBuffer.capacity)
                && (done < |segments| ==> |segments[done]| > recvBuffer.FreeSize())
      ensures outcome.Overlapping? ==> |Run(segments[..done], false).unread| >= recvBuffer.bufferSize
    {
      outcome := Waiting;
      assert segments[..0] == [];
      assert Run([], false) == Received([], []);
      hide Scan, Packets, Sum, Receive, Concat, Complete, Starts, AreFrames, Window, Consumed;
      done := 0;
      while outcome.Waiting? && done < |segments| && |segments[done]| <= recvBuffer.FreeSize()
        invariant 0 <= done <= |segments| && outcome in {Waiting, Overlapping} && connected
        invariant packets == Run(segments[..done], false).packets
        invariant outcome.Waiting? ==>
                    recvBuffer.Valid() && recvBuffer.Unread() == Run(segments[..done], false).unread && EmptyIsFree()
        invariant outcome.Overlapping? ==> |Run(segments[..done], false).unread| >= recvBuffer.bufferSize
        decreases |segments| - done
      {
        NeverHangs(frames, segments, done, false);
        RunStep(segments, done, false);
        outcome := ReceiveOn(segments[done]);
        done := done + 1;
      }
      PartStarts(frames, segments, done);
      AsWrittenKeepsItsPlace(frames, segments[..done]);
    }

    /** As written, a peer whose segments are shorter than a header fills the buffer until fewer bytes than
        one buffer are free; then Clean copies the unread bytes onto themselves. */
    method StallAll(segments: seq<seq<Byte>>) returns (outcome: Outcome)
      requires Fresh() && recvBuffer.bufferSize >= HEADER
      requires forall i :: 0 <= i < |segments| ==> 0 < |segments[i]| < HEADER
      modifies this, recvBuffer`readPos, recvBuffer`writePos, recvBuffer.buffer
      ensures packets == [] && connected
      ensures outcome == if |Concat(segments)| <= 9 * recvBuffer.bufferSize then Waiting else Overlapping
      ensures outcome.Waiting? ==> recvBuffer.Valid() && recvBuffer.Unread() == Concat(segments)
    {
      outcome := Waiting;
      assert segments[..0] == [] && segments[..|segments|] == segments;
      var i := 0;
      while i < |segments|
        invariant 0 <= i <= |segments| && outcome == Waiting && connected && packets == []
        invariant recvBuffer.Valid() && recvBuffer.readPos == 0
        invariant recvBuffer.Unread() == Concat(segments[..i]) && recvBuffer.writePos <= 9 * recvBuffer.bufferSize
      {
        NextShort(segments, i);
        hide Concat, Scan, Receive;
        outcome := ReceiveSegment(segments[i], false);
        i := i + 1;
        if outcome.Overlapping? {
          return;
        }
      }
    }
  }

  lemma RunStep(segments: seq<seq<Byte>>, i: nat, fixed: bool)
    requires i < |segments|
    ensures var before := Run(segments[..i], fixed);
            var last := Receive(before.unread, segments[i], fixed);
            Run(segments[..i + 1], fixed) == Received(last.unread, before.packets + last.packets)
  {
    assert segments[..i + 1][..i] == segments[..i];
  }

  /** A segment shorter than a header adds to the unread bytes, and to all that have been received. */
  lemma NextShort(segments: seq<seq<Byte>>, i: nat)
    requires i < |segments| && |segments[i]| < HEADER
    ensures Concat(segments[..i + 1]) == Concat(segments[..i]) + segments[i]
    ensures |Concat(segments[..i + 1])| <= |Concat(segments)|
    ensures var unread := Concat(segments[..i]);
            Scan(Window(unread, segments[i], false)) == Found([], false)
            && Reported(Window(unread, segments[i], false), false) == [] && Sum([]) == 0
  {
    assert segments[..i + 1][..i] == segments[..i];
    RunSplit(segments[..i + 1]);
    assert segments == segments[..i + 1] + segments[i + 1..];
    ConcatAppend(segments[..i + 1], segments[i + 1..]);
    hide Concat;
  }

  /** Part of the segments start the stream too. */
  lemma PartStarts(frames: seq<seq<Byte>>, segments: seq<seq<Byte>>, i: nat)
    requires i <= |segments| && Starts(Concat(segments), Concat(frames))
    ensures Starts(Concat(segments[..i]), Concat(frames))
  {
    hide *;
    assert segments == segments[..i] + segments[i..];
    ConcatAppend(segments[..i], segments[i..]);
    StartsShorter(Concat(segments[..i]), Concat(segments[i..]), Concat(frames));
  }

  /** A stream of frames never makes OnRecv hang, whichever window it is given. */
  lemma NeverHangs(frames: seq<seq<Byte>>, segments: seq<seq<Byte>>, i: nat, fixed: bool)
    requires AreFrames(frames) && i < |segments| && Starts(Concat(segments), Concat(frames))
    ensures !Scan(Window(Run(segments[..i], fixed).unread, segments[i], fixed)).stuck
  {
    hide *;
    var before, unread := Concat(segments[..i]), Run(segments[..i], fixed).unread;
    assert segments[..i + 1][..i] == segments[..i];
    RunSplit(segments[..i + 1]);
    PartStarts(frames, segments, i + 1);
    PartStarts(frames, segments, i);
    if fixed {
      IntendedDelivers(frames, segments[..i]);
    } else {
      AsWrittenKeepsItsPlace(frames, segments[..i]);
    }
    var k := |Run(segments[..i], fixed).packets|;
    CompleteIs(frames, |before|);
    Boundary(frames, k, before, unread, segments[i]);
    WindowStarts(unread, segments[i], Concat(frames[k..]), fixed);
    ScanFindsFrames(frames[k..], Window(unread, segments[i], fixed));
  }

  lemma WindowStarts(unread: seq<Byte>, segment: seq<Byte>, stream: seq<Byte>, fixed: bool)
    requires Starts(unread + segment, stream)
    ensures Starts(Window(unread, segment, fixed), stream)
  {
    var all := unread + segment;
    StartsShorter(all[..|segment|], all[|segment|..], stream);
  }

  /** The frames of the given sizes end at `at`, and the scan goes on from there. */
  predicate ScannedTo(view: seq<Byte>, at: nat, sizes: seq<nat>) {
    && at == Sum(sizes) <= |view|
    && Scan(view).sizes == sizes + Scan(view[at..]).sizes
    && Scan(view).stuck == Scan(view[at..]).stuck
  }

  lemma NothingYet(view: seq<Byte>, fixed: bool)
    ensures ScannedTo(view, 0, []) && Packets(view, 0, [], fixed) == []
  {
    assert view[0..] == view;
  }

  lemma ScanEnds(view: seq<Byte>, at: nat, sizes: seq<nat>)
    requires ScannedTo(view, at, sizes)
    requires |view| - at >= HEADER ==> |view| - at < SizeField(view[at..]) || SizeField(view[at..]) == 0
    ensures Scan(view) == Found(sizes, |view| - at >= HEADER && SizeField(view[at..]) == 0)
    ensures at == Sum(sizes)
  {
    assert sizes + [] == sizes;
  }

  lemma ScanGoesOn(view: seq<Byte>, at: nat, sizes: seq<nat>, fixed: bool)
    requires ScannedTo(view, at, sizes) && at + HEADER <= |view|
    requires 0 < SizeField(view[at..]) <= |view| - at
    ensures var size, start := SizeField(view[at..]), if fixed then at else 0;
            && ScannedTo(view, at + size, sizes + [size])
            && Packets(view, 0, sizes + [size], fixed) == Packets(view, 0, sizes, fixed) + [view[start..start + size]]
  {
    var size := SizeField(view[at..]);
    PacketsAppend(view, 0, sizes, size, fixed);
    SumAppend(sizes, size);
    assert view[at..][size..] == view[at + size..];
  }
}
