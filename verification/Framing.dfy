/** Bytes, and what the packet layer needs of them. */
module Bytes {
  type Byte = b: int | 0 <= b < 256

  function Concat(parts: seq<seq<Byte>>): seq<Byte> {
    if parts == [] then [] else parts[0] + Concat(parts[1..])
  }

  lemma Assoc<T>(a: seq<T>, b: seq<T>, c: seq<T>)
    ensures a + b + c == a + (b + c)
  {
  }

  lemma {:induction false} ConcatAppend(a: seq<seq<Byte>>, b: seq<seq<Byte>>)
    ensures Concat(a + b) == Concat(a) + Concat(b)
  {
    if a == [] {
      assert a + b == b;
    } else {
      assert (a + b)[1..] == a[1..] + b;
      ConcatAppend(a[1..], b);
    }
  }
}

/**
 * Reassembly of `[size][id][data]` frames from TCP segments: PacketSession::OnRecv and the window
 * Session::ProcessRecv gives it, as functions of the unread bytes.
 *
 * The code passes OnRecv the number of bytes just received, not the number of unread bytes, and
 * passes OnRecvPacket the start of the window, not the start of the packet.  `fixed` selects the
 * evident intent (true) or the code as written (false).
 */
module Framing {
  import opened Bytes

  const HEADER: nat := 4        // sizeof(PacketHeader)
  const MAX_SIZE: nat := 0xFFFF // header.size is a uint16

  /** header.size, little endian. */
  function SizeField(view: seq<Byte>): nat
    requires |view| >= HEADER
  {
    var low: int, high: int := view[0], view[1];
    low + 256 * high
  }

  /** What one call of OnRecv finds: the sizes of the packets it reports, in order, and whether it
      then meets a header of size 0, over which its loop never advances. */
  datatype Found = Found(sizes: seq<nat>, stuck: bool)

  function Scan(view: seq<Byte>): Found
    decreases |view|
  {
    if |view| < HEADER || |view| < SizeField(view) then Found([], false)
    else if SizeField(view) == 0 then Found([], true)
    else var rest := Scan(view[SizeField(view)..]); Found([SizeField(view)] + rest.sizes, rest.stuck)
  }

  function Sum(sizes: seq<nat>): nat {
    if sizes == [] then 0 else sizes[0] + Sum(sizes[1..])
  }

  lemma {:induction false} SumAppend(sizes: seq<nat>, size: nat)
    ensures Sum(sizes + [size]) == Sum(sizes) + size
  {
    if sizes != [] {
      assert (sizes + [size])[1..] == sizes[1..] + [size];
      SumAppend(sizes[1..], size);
    }
  }

  /** The bytes handed to OnRecvPacket for the packets of the given sizes, the first of which starts
      `at` bytes into the window. */
  function Packets(view: seq<Byte>, at: nat, sizes: seq<nat>, fixed: bool): (packets: seq<seq<Byte>>)
    requires at + Sum(sizes) <= |view|
    ensures |packets| == |sizes|
    decreases |sizes|
  {
    if sizes == [] then []
    else
      var start := if fixed then at else 0;
      [view[start..start + sizes[0]]] + Packets(view, at + sizes[0], sizes[1..], fixed)
  }

  /** What a scan leaves is too short to be a frame, and shorter than any header can announce. */
  lemma {:induction false} ScanRemainder(view: seq<Byte>)
    ensures Sum(Scan(view).sizes) <= |view|
    ensures !Scan(view).stuck ==> |view| - Sum(Scan(view).sizes) < MAX_SIZE
    decreases |view|
  {
    if |view| >= HEADER && 0 < SizeField(view) <= |view| {
      ScanRemainder(view[SizeField(view)..]);
    }
  }

  lemma {:induction false} PacketsAppend(view: seq<Byte>, at: nat, sizes: seq<nat>, size: nat, fixed: bool)
    requires at + Sum(sizes) + size <= |view|
    ensures at + Sum(sizes + [size]) <= |view|
    ensures var start := if fixed then at + Sum(sizes) else 0;
            Packets(view, at, sizes + [size], fixed) == Packets(view, at, sizes, fixed) + [view[start..start + size]]
    decreases |sizes|
  {
    SumAppend(sizes, size);
    if sizes != [] {
      assert (sizes + [size])[1..] == sizes[1..] + [size];
      PacketsAppend(view, at + sizes[0], sizes[1..], size, fixed);
    }
  }

  // ---------------------------------------------------------------- one receive

  function Window(unread: seq<Byte>, segment: seq<Byte>, fixed: bool): seq<Byte> {
    if fixed then unread + segment else (unread + segment)[..|segment|]
  }

  /** The packets OnRecv reports of a window. */
  function Reported(view: seq<Byte>, fixed: bool): seq<seq<Byte>> {
    ScanRemainder(view);
    Packets(view, 0, Scan(view).sizes, fixed)
  }

  datatype Received = Received(unread: seq<Byte>, packets: seq<seq<Byte>>)

  function Receive(unread: seq<Byte>, segment: seq<Byte>, fixed: bool): Received {
    var view := Window(unread, segment, fixed);
    var sizes := Scan(view).sizes;
    ScanRemainder(view);
    Received((unread + segment)[Sum(sizes)..], Reported(view, fixed))
  }

  /** The whole run: the bytes still unread and the packets reported, after all the segments. */
  function Run(segments: seq<seq<Byte>>, fixed: bool): Received {
    if segments == [] then Received([], [])
    else
      var before := Run(segments[..|segments| - 1], fixed);
      var last := Receive(before.unread, segments[|segments| - 1], fixed);
      Received(last.unread, before.packets + last.packets)
  }

  // ---------------------------------------------------------------- streams of frames

  predicate IsFrame(frame: seq<Byte>) {
    HEADER <= |frame| <= MAX_SIZE && SizeField(frame) == |frame|
  }

  predicate AreFrames(frames: seq<seq<Byte>>) {
    forall i :: 0 <= i < |frames| ==> IsFrame(frames[i])
  }

  function Sizes(frames: seq<seq<Byte>>): seq<nat> {
    if frames == [] then [] else [|frames[0]|] + Sizes(frames[1..])
  }

  /** How many of the frames are complete in the first `n` bytes of their stream. */
  function Complete(frames: seq<seq<Byte>>, n: int): (k: nat)
    ensures k <= |frames|
  {
    if frames == [] || n < |frames[0]| then 0 else 1 + Complete(frames[1..], n - |frames[0]|)
  }

  predicate Starts(view: seq<Byte>, stream: seq<Byte>) {
    |view| <= |stream| && view == stream[..|view|]
  }

  /** Exactly `k` frames are complete in `n` bytes: their bytes fit, and those of one more do not. */
  lemma {:induction false} CompleteIs(frames: seq<seq<Byte>>, n: int)
    requires n >= 0
    ensures |Concat(frames[..Complete(frames, n)])| <= n
    ensures Complete(frames, n) < |frames| ==> n < |Concat(frames[..Complete(frames, n) + 1])|
    decreases |frames|
  {
    var k := Complete(frames, n);
    if k > 0 {
      CompleteIs(frames[1..], n - |frames[0]|);
      assert frames[..k][1..] == frames[1..][..k - 1];
      assert k < |frames| ==> frames[..k + 1][1..] == frames[1..][..k];
    } else if frames != [] {
      assert frames[..1][1..] == [];
    }
  }

  lemma {:induction false} CompleteUnique(frames: seq<seq<Byte>>, n: int, k: nat)
    requires AreFrames(frames) && k <= |frames|
    requires |Concat(frames[..k])| <= n
    requires k < |frames| ==> n < |Concat(frames[..k + 1])|
    ensures k == Complete(frames, n)
    decreases |frames|
  {
    if frames != [] && k > 0 {
      assert frames[..k][1..] == frames[1..][..k - 1];
      assert k < |frames| ==> frames[..k + 1][1..] == frames[1..][..k];
      CompleteUnique(frames[1..], n - |frames[0]|, k - 1);
    } else if frames != [] {
      assert frames[..1][1..] == [];
    }
  }

  /** A window that starts on a frame boundary is cut exactly into the frames complete in it. */
  lemma {:induction false} ScanFindsFrames(frames: seq<seq<Byte>>, view: seq<Byte>)
    requires AreFrames(frames) && Starts(view, Concat(frames))
    ensures Scan(view) == Found(Sizes(frames[..Complete(frames, |view|)]), false)
    decreases |frames|
  {
    if frames != [] && |view| >= HEADER {
      assert IsFrame(frames[0]);
      assert view[0] == frames[0][0] && view[1] == frames[0][1];
      if |view| >= |frames[0]| {
        var k := Complete(frames, |view|);
        assert Concat(frames)[|frames[0]|..] == Concat(frames[1..]);
        assert view[|frames[0]|..] == Concat(frames)[..|view|][|frames[0]|..];
        ScanFindsFrames(frames[1..], view[|frames[0]|..]);
        assert frames[..k][1..] == frames[1..][..k - 1];
      }
    }
  }

  lemma {:induction false} SumSizes(frames: seq<seq<Byte>>)
    ensures Sum(Sizes(frames)) == |Concat(frames)|
  {
    if frames != [] {
      SumSizes(frames[1..]);
    }
  }

  /** With the right pointer, the packets cut out of a window are the frames themselves. */
  lemma {:induction false} PacketsAreFrames(frames: seq<seq<Byte>>, view: seq<Byte>, at: nat)
    requires at + |Concat(frames)| <= |view| && Concat(frames) == view[at..at + |Concat(frames)|]
    ensures Sum(Sizes(frames)) == |Concat(frames)|
    ensures Packets(view, at, Sizes(frames), true) == frames
    decreases |frames|
  {
    SumSizes(frames);
    if frames != [] {
      var n := |frames[0]|;
      assert Sizes(frames)[1..] == Sizes(frames[1..]);
      assert frames[0] == Concat(frames)[..n] == view[at..at + n];
      assert Concat(frames[1..]) == Concat(frames)[n..] == view[at + n..at + |Concat(frames)|];
      PacketsAreFrames(frames[1..], view, at + n);
    }
  }

  /** With the pointer as written, every packet of a call is cut from the start of the window. */
  lemma {:induction false} PacketsAsWritten(view: seq<Byte>, at: nat, sizes: seq<nat>, i: nat)
    requires at + Sum(sizes) <= |view| && i < |sizes|
    ensures sizes[i] <= |view|
    ensures Packets(view, at, sizes, false)[i] == view[..sizes[i]]
    decreases |sizes|
  {
    if i > 0 {
      PacketsAsWritten(view, at + sizes[0], sizes[1..], i - 1);
    }
  }

  // ---------------------------------------------------------------- one receive on a frame boundary

  lemma {:induction false} SizesAt(frames: seq<seq<Byte>>, i: nat)
    requires i < |frames|
    ensures |Sizes(frames)| == |frames| && Sizes(frames)[i] == |frames[i]|
  {
    if i > 0 {
      SizesAt(frames[1..], i - 1);
    } else if |frames| > 1 {
      SizesAt(frames[1..], 0);
    }
  }

  lemma StartsAfter(prefix: seq<Byte>, view: seq<Byte>, stream: seq<Byte>)
    ensures Starts(prefix + view, prefix + stream) <==> Starts(view, stream)
  {
    assert (prefix + view)[|prefix|..] == view;
    if Starts(prefix + view, prefix + stream) {
      assert (prefix + stream)[..|prefix + view|][|prefix|..] == stream[..|view|];
    }
  }

  /** A window on a frame boundary, its scan and the stream: the complete frames are its first bytes. */
  lemma WindowOfFrames(frames: seq<seq<Byte>>, view: seq<Byte>)
    requires AreFrames(frames) && Starts(view, Concat(frames))
    ensures var c := Complete(frames, |view|);
            && Scan(view) == Found(Sizes(frames[..c]), false)
            && Sum(Sizes(frames[..c])) == |Concat(frames[..c])| <= |view|
            && Concat(frames) == Concat(frames[..c]) + Concat(frames[c..])
            && Concat(frames[..c]) == view[..|Concat(frames[..c])|]
  {
    var c := Complete(frames, |view|);
    ScanFindsFrames(frames, view);
    CompleteIs(frames, |view|);
    SumSizes(frames[..c]);
    assert frames[..c] + frames[c..] == frames;
    ConcatAppend(frames[..c], frames[c..]);
    hide Concat, Complete, Scan, Sizes, Sum, AreFrames;
    assert view[..|Concat(frames[..c])|] == Concat(frames)[..|Concat(frames[..c])|];
  }

  /** What one receive reports, when the unread bytes start on a frame boundary: the frames complete in
      its window, by their sizes; what is left starts on a frame boundary again. */
  lemma ReceiveCuts(frames: seq<seq<Byte>>, unread: seq<Byte>, segment: seq<Byte>, fixed: bool)
    requires AreFrames(frames) && Starts(unread + segment, Concat(frames))
    ensures var r, c := Receive(unread, segment, fixed), Complete(frames, |Window(unread, segment, fixed)|);
            && |r.packets| == c
            && unread + segment == Concat(frames[..c]) + r.unread
            && Starts(r.unread, Concat(frames[c..]))
  {
    var all, view := unread + segment, Window(unread, segment, fixed);
    var c := Complete(frames, |view|);
    assert Starts(view, Concat(frames));
    WindowOfFrames(frames, view);
    SizesCount(frames[..c]);
    hide Concat, Complete, Scan, Sizes, Sum, AreFrames, Packets, Starts;
    assert Concat(frames[..c]) == all[..|Concat(frames[..c])|];
    RestStarts(Concat(frames[..c]), all, Concat(frames[c..]));
  }

  lemma RestStarts(head: seq<Byte>, all: seq<Byte>, tail: seq<Byte>)
    requires |head| <= |all| && head == all[..|head|] && Starts(all, head + tail)
    ensures all == head + all[|head|..] && Starts(all[|head|..], tail)
  {
    assert all == head + all[|head|..];
    StartsAfter(head, all[|head|..], tail);
  }

  lemma SizesCount(frames: seq<seq<Byte>>)
    ensures |Sizes(frames)| == |frames|
  {
    if frames != [] {
      SizesAt(frames, 0);
    }
  }

  lemma IntendedPackets(frames: seq<seq<Byte>>, unread: seq<Byte>, segment: seq<Byte>)
    requires AreFrames(frames) && Starts(unread + segment, Concat(frames))
    ensures Receive(unread, segment, true).packets == frames[..Complete(frames, |unread + segment|)]
  {
    var view := unread + segment;
    WindowOfFrames(frames, view);
    hide Concat, Complete, Scan, Sizes, Sum, Packets, AreFrames, Starts;
    PacketsAreFrames(frames[..Complete(frames, |view|)], view, 0);
  }

  lemma AsWrittenPackets(frames: seq<seq<Byte>>, unread: seq<Byte>, segment: seq<Byte>)
    requires AreFrames(frames) && Starts(unread + segment, Concat(frames))
    ensures |Receive(unread, segment, false).packets| == Complete(frames, |segment|)
    ensures forall i :: 0 <= i < Complete(frames, |segment|) ==>
              && |frames[i]| <= |segment|
              && Receive(unread, segment, false).packets[i] == (unread + segment)[..|frames[i]|]
  {
    var view := Window(unread, segment, false);
    var c := Complete(frames, |view|);
    assert Starts(view, Concat(frames));
    ScanFindsFrames(frames, view);
    ScanRemainder(view);
    SizesCount(frames[..c]);
    hide Concat, Complete, Scan, Sizes, Sum, Packets, AreFrames;
    forall i | 0 <= i < c
      ensures |frames[i]| <= |segment| && Reported(view, false)[i] == (unread + segment)[..|frames[i]|]
    {
      SizesAt(frames[..c], i);
      PacketsAsWritten(view, 0, Scan(view).sizes, i);
    }
  }

  /** The code as written reports every complete frame exactly when they all fit in the bytes just
      received; otherwise it falls behind. */
  lemma AsWrittenKeepsUpIff(frames: seq<seq<Byte>>, unread: seq<Byte>, segment: seq<Byte>)
    requires AreFrames(frames) && Starts(unread + segment, Concat(frames))
    ensures var all := Complete(frames, |unread + segment|);
            |Receive(unread, segment, false).packets| == all <==> |Concat(frames[..all])| <= |segment|
  {
    var all := Complete(frames, |unread + segment|);
    ReceiveCuts(frames, unread, segment, false);
    CompleteIs(frames, |segment|);
    CompleteIs(frames, |unread + segment|);
    hide Receive, Concat, Complete, Starts;
    if |Concat(frames[..all])| <= |segment| {
      CompleteUnique(frames, |segment|, all);
    }
  }

  /** As written, a packet is the true frame exactly when that frame equals the first of the call: every
      other one is reported wrong. */
  lemma {:induction false} AsWrittenPointer(frames: seq<seq<Byte>>, unread: seq<Byte>, segment: seq<Byte>)
    requires AreFrames(frames) && Starts(unread + segment, Concat(frames))
    ensures |Receive(unread, segment, false).packets| == Complete(frames, |segment|)
    ensures forall i :: 0 <= i < Complete(frames, |segment|) ==>
              (Receive(unread, segment, false).packets[i] == frames[i] <==> frames[i] == frames[0])
  {
    AsWrittenPackets(frames, unread, segment);
    hide Receive, Complete;
    forall i | 0 <= i < Complete(frames, |segment|)
      ensures Receive(unread, segment, false).packets[i] == frames[i] <==> frames[i] == frames[0]
    {
      assert frames[0] == Concat(frames)[..|frames[0]|];
      assert IsFrame(frames[0]) && IsFrame(frames[i]);
      hide Concat, AreFrames;
      if frames[i] <= unread + segment {
        assert frames[i][0] == frames[0][0] && frames[i][1] == frames[0][1];
      }
    }
  }

  // ---------------------------------------------------------------- where the loop hangs

  /** Each size is the positive header size of the next whole frame. */
  predicate Cuts(view: seq<Byte>, sizes: seq<nat>)
    decreases |sizes|
  {
    sizes == [] ||
    (HEADER <= |view| && 0 < sizes[0] == SizeField(view) <= |view| && Cuts(view[sizes[0]..], sizes[1..]))
  }

  /** A zero header is waiting after the frames of these sizes. */
  predicate ZeroAfter(view: seq<Byte>, sizes: seq<nat>) {
    Sum(sizes) + HEADER <= |view| && SizeField(view[Sum(sizes)..]) == 0
  }

  lemma HangsDeeper(view: seq<Byte>, sizes: seq<nat>)
    requires |view| >= HEADER && 0 < SizeField(view) <= |view|
    ensures var n := SizeField(view);
            Cuts(view, [n] + sizes) && ZeroAfter(view, [n] + sizes) <==> Cuts(view[n..], sizes) && ZeroAfter(view[n..], sizes)
  {
    var n := SizeField(view);
    assert ([n] + sizes)[1..] == sizes;
    if n + Sum(sizes) <= |view| {
      assert view[n + Sum(sizes)..] == view[n..][Sum(sizes)..];
    }
  }

  /** OnRecv hangs exactly when some whole frames of positive size are followed by at least a header's worth
      of bytes that announce the size 0. */
  lemma {:induction false} HangsIff(view: seq<Byte>)
    ensures Scan(view).stuck <==> exists sizes :: Cuts(view, sizes) && ZeroAfter(view, sizes)
    decreases |view|
  {
    if |view| >= HEADER && 0 < SizeField(view) <= |view| {
      var n := SizeField(view);
      HangsIff(view[n..]);
      if Scan(view).stuck {
        var sizes :| Cuts(view[n..], sizes) && ZeroAfter(view[n..], sizes);
        HangsDeeper(view, sizes);
      }
      if sizes :| Cuts(view, sizes) && ZeroAfter(view, sizes) {
        assert view[0..] == view;
        assert sizes == [n] + sizes[1..];
        HangsDeeper(view, sizes[1..]);
      }
    } else {
      assert view[0..] == view;
      if |view| >= HEADER && SizeField(view) == 0 {
        assert Cuts(view, []) && ZeroAfter(view, []);
      }
    }
  }

  /** Four zero bytes are enough. */
  lemma ZeroHeaderHangs(rest: seq<Byte>)
    ensures Scan([0, 0, 0, 0] + rest) == Found([], true)
  {
  }

  // ---------------------------------------------------------------- whole runs

  lemma RunSplit(segments: seq<seq<Byte>>)
    requires segments != []
    ensures var n := |segments| - 1; Concat(segments) == Concat(segments[..n]) + segments[n]
  {
    var n := |segments| - 1;
    assert segments == segments[..n] + [segments[n]];
    ConcatAppend(segments[..n], [segments[n]]);
    assert Concat([segments[n]]) == segments[n] + Concat([]);
  }

  lemma StartsShorter(a: seq<Byte>, b: seq<Byte>, stream: seq<Byte>)
    requires Starts(a + b, stream)
    ensures Starts(a, stream)
  {
    assert (a + b)[..|a|] == a;
  }

  /** A run that has read `k` whole frames stands on a frame boundary of the stream. */
  lemma Boundary(frames: seq<seq<Byte>>, k: nat, received: seq<Byte>, unread: seq<Byte>, segment: seq<Byte>)
    requires k <= |frames| && AreFrames(frames)
    requires Starts(received + segment, Concat(frames))
    requires received == Concat(frames[..k]) + unread
    ensures AreFrames(frames[k..]) && Starts(unread + segment, Concat(frames[k..]))
  {
    hide Concat, Starts, IsFrame;
    assert frames == frames[..k] + frames[k..];
    ConcatAppend(frames[..k], frames[k..]);
    assert received + segment == Concat(frames[..k]) + (unread + segment);
    StartsAfter(Concat(frames[..k]), unread + segment, Concat(frames[k..]));
  }

  lemma ConcatRange(frames: seq<seq<Byte>>, k: nat, c: nat)
    requires k + c <= |frames|
    ensures Concat(frames[..k + c]) == Concat(frames[..k]) + Concat(frames[k..][..c])
    ensures frames[..k + c] == frames[..k] + frames[k..][..c]
  {
    assert frames[..k + c] == frames[..k] + frames[k..][..c];
    ConcatAppend(frames[..k], frames[k..][..c]);
  }

  /** Frames complete in a stream, counted from the `k`-th frame on. */
  lemma CompleteFrom(frames: seq<seq<Byte>>, k: nat, n: nat)
    requires AreFrames(frames) && k <= |frames|
    ensures Complete(frames, |Concat(frames[..k])| + n) == k + Complete(frames[k..], n)
  {
    var c := Complete(frames[k..], n);
    CompleteIs(frames[k..], n);
    ConcatRange(frames, k, c);
    if k + c < |frames| {
      ConcatRange(frames, k, c + 1);
    }
    hide Concat, Complete;
    CompleteUnique(frames, |Concat(frames[..k])| + n, k + c);
  }

  /** One more receive of a run that has read `k` whole frames. */
  lemma Extend(frames: seq<seq<Byte>>, k: nat, received: seq<Byte>, unread: seq<Byte>, segment: seq<Byte>, fixed: bool)
    requires k <= |frames| && AreFrames(frames)
    requires Starts(received + segment, Concat(frames))
    requires received == Concat(frames[..k]) + unread
    ensures var r := Receive(unread, segment, fixed);
            && k + |r.packets| <= Complete(frames, |received + segment|)
            && received + segment == Concat(frames[..k + |r.packets|]) + r.unread
            && (fixed ==> k + |r.packets| == Complete(frames, |received + segment|))
            && (fixed ==> r.packets == frames[k..][..|r.packets|])
            && (!fixed ==> forall i :: 0 <= i < |r.packets| ==> |r.packets[i]| == |frames[k..][i]|)
  {
    hide Receive, Concat, Complete, Starts, AreFrames;
    Boundary(frames, k, received, unread, segment);
    ReceiveCuts(frames[k..], unread, segment, fixed);
    CompleteFrom(frames, k, |unread + segment|);
    CompleteMonotone(frames[k..], |segment|, |unread + segment|);
    var c := |Receive(unread, segment, fixed).packets|;
    ConcatRange(frames, k, c);
    assert received + segment == Concat(frames[..k]) + (unread + segment);
    assert |received + segment| == |Concat(frames[..k])| + |unread + segment|;
    if fixed {
      IntendedPackets(frames[k..], unread, segment);
    } else {
      AsWrittenPackets(frames[k..], unread, segment);
    }
  }

  lemma {:induction false} CompleteMonotone(frames: seq<seq<Byte>>, n: int, m: int)
    requires n <= m
    ensures Complete(frames, n) <= Complete(frames, m)
    decreases |frames|
  {
    if frames != [] && |frames[0]| <= n {
      CompleteMonotone(frames[1..], n - |frames[0]|, m - |frames[0]|);
    }
  }

  /** With the intended window and pointer, the packets reported are exactly the frames completed so
      far, whatever the segmentation. */
  lemma {:induction false} IntendedDelivers(frames: seq<seq<Byte>>, segments: seq<seq<Byte>>)
    requires AreFrames(frames) && Starts(Concat(segments), Concat(frames))
    ensures var r, k := Run(segments, true), Complete(frames, |Concat(segments)|);
            r.packets == frames[..k] && Concat(segments) == Concat(frames[..k]) + r.unread
    decreases |segments|
  {
    if segments == [] {
      CompleteIs(frames, 0);
    } else {
      var n := |segments| - 1;
      RunSplit(segments);
      hide Receive, Concat, Complete, Starts, AreFrames;
      var before, run := Concat(segments[..n]), Run(segments[..n], true);
      StartsShorter(before, segments[n], Concat(frames));
      IntendedDelivers(frames, segments[..n]);
      var k, c := |run.packets|, |Receive(run.unread, segments[n], true).packets|;
      Extend(frames, k, before, run.unread, segments[n], true);
      ConcatRange(frames, k, c);
    }
  }

  /** As written, the run never loses its place: the packets reported have the sizes of the first `k`
      frames, and the unread bytes are those received after them.  But `k` may be too small. */
  lemma {:induction false} AsWrittenKeepsItsPlace(frames: seq<seq<Byte>>, segments: seq<seq<Byte>>)
    requires AreFrames(frames) && Starts(Concat(segments), Concat(frames))
    ensures var r := Run(segments, false);
            && |r.packets| <= Complete(frames, |Concat(segments)|)
            && Concat(segments) == Concat(frames[..|r.packets|]) + r.unread
            && forall i :: 0 <= i < |r.packets| ==> |r.packets[i]| == |frames[i]|
    decreases |segments|
  {
    if segments != [] {
      var n := |segments| - 1;
      RunSplit(segments);
      hide Receive, Concat, Complete, Starts, AreFrames;
      var before, run := Concat(segments[..n]), Run(segments[..n], false);
      StartsShorter(before, segments[n], Concat(frames));
      AsWrittenKeepsItsPlace(frames, segments[..n]);
      var k, c := |run.packets|, |Receive(run.unread, segments[n], false).packets|;
      Extend(frames, k, before, run.unread, segments[n], false);
      ConcatRange(frames, k, c);
    }
  }

  /** A peer whose segments are shorter than a header is never answered by the code as written: the
      unread bytes only grow. */
  lemma {:induction false} ShortSegmentsStall(segments: seq<seq<Byte>>)
    requires forall i :: 0 <= i < |segments| ==> |segments[i]| < HEADER
    ensures Run(segments, false) == Received(Concat(segments), [])
    decreases |segments|
  {
    if segments != [] {
      var n := |segments| - 1;
      RunSplit(segments);
      hide Concat;
      ShortSegmentsStall(segments[..n]);
      assert Scan(Window(Concat(segments[..n]), segments[n], false)) == Found([], false);
    }
  }
}
