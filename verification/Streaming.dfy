/** Reading a stream in chunks: what the connected loop parses does not depend on where the network cuts it. */
module Streaming {
  import opened Wire
  import opened Framing
  import opened VarInt
  import opened Framer
  import Properties

  // ----- The reference: the stream cut into frames, without any reading in between -----

  function Frames(stream: Bytes): seq<Bytes>
    decreases |stream|
  {
    var head := SplitHead(stream);
    if head.Whole? then [head.frame] + Frames(head.rest) else []
  }

  /** What is left after the last whole frame. */
  function Remainder(stream: Bytes): Bytes
    decreases |stream|
  {
    var head := SplitHead(stream);
    if head.Whole? then Remainder(head.rest) else stream
  }

  // ----- The connected task: append what was read, run the loop, keep what is left -----

  function Feed(buf: Bytes, chunks: seq<Bytes>, version: Protocol): Drained
    decreases |chunks|
  {
    if chunks == [] then Drained([], buf, false)
    else
      var d := Drain(buf + chunks[0], version);
      var e := Feed(d.rest, chunks[1..], version);
      Drained(d.frames + e.frames, e.rest, d.discarded || e.discarded)
  }

  lemma {:induction false} FlattenSplit(a: seq<Bytes>, b: seq<Bytes>)
    ensures Flatten(a + b) == Flatten(a) + Flatten(b)
  {
    if a == [] {
      assert a + b == b;
    } else {
      FlattenSplit(a[1..], b);
      assert (a + b)[1..] == a[1..] + b && (a + b)[0] == a[0];
      Properties.Reassociate(a[0], Flatten(a[1..]), Flatten(b));
    }
  }

  // ----- Any stream: no byte is lost, none is read twice, frames come out in order -----

  /** Bytes that arrive later are cut after those already here. */
  lemma FramesLater(stream: Bytes, more: Bytes)
    requires SplitHead(stream).Whole?
    ensures var head := SplitHead(stream);
            && Frames(stream + more) == [head.frame] + Frames(head.rest + more)
            && Remainder(stream + more) == Remainder(head.rest + more)
  {
    SplitStable(stream, more);
  }

  /** One run of the loop takes a prefix of the frames, or meets a length it cannot read. */
  lemma {:induction false} DrainTakesPrefix(buf: Bytes, more: Bytes, version: Protocol)
    ensures var d := Drain(buf, version);
            if d.discarded then SplitHead(Remainder(buf + more)).Garbage?
            else && Frames(buf + more) == d.frames + Frames(d.rest + more)
                 && Remainder(buf + more) == Remainder(d.rest + more)
                 && buf == Flatten(d.frames) + d.rest
    decreases |buf|
  {
    hide ReadPacket, SplitHead;
    var d, head := Drain(buf, version), SplitHead(buf);
    if head.Whole? {
      FramesLater(buf, more);
      if ReadPacket(head.header, head.frame, version).Err? || |head.rest| < 2 {
        assert d.frames == [head.frame];
        assert Flatten([head.frame]) == head.frame;
      } else {
        DrainTakesPrefix(head.rest, more, version);
        var e := Drain(head.rest, version);
        assert d.frames == [head.frame] + e.frames && d.frames[1..] == e.frames;
        Properties.Reassociate([head.frame], e.frames, Frames(e.rest + more));
        Properties.Reassociate(head.frame, Flatten(e.frames), e.rest);
      }
    } else if head.Garbage? {
      SplitStable(buf, more);
    } else {
      assert [] + Frames(buf + more) == Frames(buf + more);
    }
  }

  /**
   However the stream is cut, unless bytes were discarded: the frames read so far are the first frames of the stream,
   what is in the buffer is exactly what follows them, and no byte is anywhere else. Bytes are discarded only if the
   stream itself reaches a length of more than four bytes.
   */
  lemma {:induction false} FeedTakesPrefix(buf: Bytes, chunks: seq<Bytes>, version: Protocol)
    ensures var d, stream := Feed(buf, chunks, version), buf + Flatten(chunks);
            if d.discarded then SplitHead(Remainder(stream)).Garbage?
            else && Frames(stream) == d.frames + Frames(d.rest)
                 && Remainder(stream) == Remainder(d.rest)
                 && stream == Flatten(d.frames) + d.rest
    decreases |chunks|
  {
    hide Drain, SplitHead;
    if chunks == [] {
      assert buf + Flatten(chunks) == buf;
      assert [] + Frames(buf) == Frames(buf) && Flatten([]) + buf == buf;
    } else {
      var more := Flatten(chunks[1..]);
      var d := Drain(buf + chunks[0], version);
      var e := Feed(d.rest, chunks[1..], version);
      Properties.Reassociate(buf, chunks[0], more);
      hide Flatten, Frames, Remainder;
      DrainTakesPrefix(buf + chunks[0], more, version);
      FeedTakesPrefix(d.rest, chunks[1..], version);
      FlattenSplit(d.frames, e.frames);
      if !d.discarded && !e.discarded {
        Properties.Reassociate(d.frames, e.frames, Frames(e.rest));
        Properties.Reassociate(Flatten(d.frames), d.rest, more);
        Properties.Reassociate(Flatten(d.frames), Flatten(e.frames), e.rest);
      }
    }
  }

  // ----- When the loop takes every whole frame -----

  /** Every frame reads well, except possibly the last. */
  predicate ReadsToTheEnd(frames: seq<Bytes>, version: Protocol) {
    forall i :: 0 <= i < |frames| - 1 ==> PacketOf(frames[i], version).Ok?
  }

  lemma ShortHasNoFrame(buf: Bytes)
    requires |buf| < 2
    ensures Frames(buf) == []
  {
  }

  /** The loop stops at the first frame that fails to read, and otherwise only when no whole frame is left. */
  lemma {:induction false} DrainAll(buf: Bytes, version: Protocol)
    requires !Drain(buf, version).discarded
    ensures ReadsToTheEnd(Frames(buf), version) <==> Drain(buf, version).frames == Frames(buf)
    decreases |buf|
  {
    hide ReadPacket, SplitHead, PacketOf;
    var head := SplitHead(buf);
    if head.Whole? {
      PacketOfHead(buf, version);
      var tail := Frames(head.rest);
      assert Frames(buf)[1..] == tail;
      assert Frames(buf)[0] == head.frame;
      if |head.rest| < 2 {
        ShortHasNoFrame(head.rest);
      } else if ReadPacket(head.header, head.frame, version).Ok? {
        DrainAll(head.rest, version);
        forall i | 0 <= i < |tail| ensures tail[i] == Frames(buf)[i + 1] {
        }
        if ReadsToTheEnd(tail, version) {
          forall i | 0 <= i < |Frames(buf)| - 1 ensures PacketOf(Frames(buf)[i], version).Ok? {
            if i > 0 {
              assert tail[i - 1] == Frames(buf)[i];
            }
          }
        }
        assert Drain(buf, version).frames[1..] == Drain(head.rest, version).frames;
      }
    }
  }

  lemma ReadsOn(a: seq<Bytes>, b: seq<Bytes>, version: Protocol)
    requires ReadsToTheEnd(a + b, version)
    ensures ReadsToTheEnd(a, version) && ReadsToTheEnd(b, version)
  {
    forall i | 0 <= i < |a| - 1 ensures PacketOf(a[i], version).Ok? {
      assert (a + b)[i] == a[i];
    }
    forall i | 0 <= i < |b| - 1 ensures PacketOf(b[i], version).Ok? {
      assert (a + b)[|a| + i] == b[i];
    }
  }

  lemma {:induction false} NoFrameInRemainder(stream: Bytes)
    ensures Frames(Remainder(stream)) == [] && Remainder(Remainder(stream)) == Remainder(stream)
    decreases |stream|
  {
    var head := SplitHead(stream);
    if head.Whole? {
      NoFrameInRemainder(head.rest);
    }
  }

  /** Frames of what has arrived, then frames of the rest with what is still to come. */
  lemma {:induction false} FramesSoFar(stream: Bytes, more: Bytes)
    requires !SplitHead(Remainder(stream)).Garbage?
    ensures Frames(stream + more) == Frames(stream) + Frames(Remainder(stream) + more)
    decreases |stream|
  {
    hide SplitHead;
    var head := SplitHead(stream);
    if head.Whole? {
      FramesLater(stream, more);
      FramesSoFar(head.rest, more);
      Properties.Reassociate([head.frame], Frames(head.rest), Frames(Remainder(stream) + more));
    } else {
      assert [] + Frames(stream + more) == Frames(stream + more);
    }
  }

  lemma {:induction false} FeedAll(buf: Bytes, chunks: seq<Bytes>, version: Protocol)
    requires Frames(buf) == []
    requires ReadsToTheEnd(Frames(buf + Flatten(chunks)), version)
    requires !SplitHead(Remainder(buf + Flatten(chunks))).Garbage?
    ensures var d, stream := Feed(buf, chunks, version), buf + Flatten(chunks);
            d == Drained(Frames(stream), Remainder(stream), false)
    decreases |chunks|
  {
    hide Drain, SplitHead, ReadsToTheEnd;
    if chunks == [] {
      assert buf + Flatten(chunks) == buf;
      RemainderOfNothing(buf);
    } else {
      var more, first := Flatten(chunks[1..]), buf + chunks[0];
      var stream := buf + Flatten(chunks);
      assert stream == first + more;
      var d := Drain(first, version);
      DrainTakesPrefix(first, more, version);
      DrainTakesPrefix(first, [], version);
      assert first + [] == first && d.rest + [] == d.rest;
      assert !d.discarded;
      PrefixReads(first, more, version);
      DrainAll(first, version);
      assert Frames(d.rest) == [] by {
        assert Frames(first) == Frames(first) + Frames(d.rest);
      }
      ReadsOn(d.frames, Frames(d.rest + more), version);
      FeedAll(d.rest, chunks[1..], version);
    }
  }

  lemma RemainderOfNothing(buf: Bytes)
    requires Frames(buf) == []
    ensures Remainder(buf) == buf
  {
  }

  lemma PrefixReads(first: Bytes, more: Bytes, version: Protocol)
    requires ReadsToTheEnd(Frames(first + more), version)
    requires !SplitHead(Remainder(first + more)).Garbage?
    ensures ReadsToTheEnd(Frames(first), version)
  {
    hide SplitHead, ReadsToTheEnd;
    if SplitHead(Remainder(first)).Garbage? {
      GarbageStays(first, more);
    }
    FramesSoFar(first, more);
    ReadsOn(Frames(first), Frames(Remainder(first) + more), version);
  }

  lemma {:induction false} GarbageStays(stream: Bytes, more: Bytes)
    requires SplitHead(Remainder(stream)).Garbage?
    ensures SplitHead(Remainder(stream + more)).Garbage?
    ensures Frames(stream + more) == Frames(stream) && Remainder(stream + more) == Remainder(stream) + more
    decreases |stream|
  {
    hide SplitHead;
    var head := SplitHead(stream);
    if head.Whole? {
      FramesLater(stream, more);
      GarbageStays(head.rest, more);
    } else {
      SplitStable(stream, more);
    }
  }

  // ----- Streams that reach a length which cannot be read -----

  predicate AllRead(frames: seq<Bytes>, version: Protocol) {
    forall i :: 0 <= i < |frames| ==> PacketOf(frames[i], version).Ok?
  }

  /** A length is malformed by its first four bytes. */
  lemma GarbageShape(stream: Bytes)
    ensures SplitHead(stream).Garbage?
            <==> |stream| >= 5 && stream[1] >= 128 && stream[2] >= 128 && stream[3] >= 128 && stream[4] >= 128
  {
    if |stream| >= 5 {
      var s := stream[1..];
      assert s[1..][1..][1..] == s[3..] && s[1..][1..] == s[2..];
      assert DecodeFrom(s[3..], 3).Malformed? <==> s[3] >= 128;
      assert DecodeFrom(s[2..], 2).Malformed? <==> s[2] >= 128 && s[3] >= 128;
    }
  }

  /** The end of a stream whose frames have all been taken: kept while it can still grow into a frame. */
  function Kept(stream: Bytes): Bytes {
    if SplitHead(Remainder(stream)).Garbage? then [] else Remainder(stream)
  }

  /** Everything read, and the buffer thrown away if and only if the stream has reached a malformed length. */
  function AllOf(stream: Bytes): Drained {
    Drained(Frames(stream), Kept(stream), SplitHead(Remainder(stream)).Garbage?)
  }

  /** The loop gets to a malformed length exactly if every frame before it reads well. */
  lemma {:induction false} DrainReads(buf: Bytes, version: Protocol)
    ensures AllRead(Frames(buf), version) ==> Drain(buf, version) == AllOf(buf)
    ensures !AllRead(Frames(buf), version) ==> !Drain(buf, version).discarded
    decreases |buf|
  {
    hide ReadPacket, SplitHead, PacketOf;
    var head := SplitHead(buf);
    if head.Whole? {
      PacketOfHead(buf, version);
      var tail := Frames(head.rest);
      AllReadCons(head.frame, tail, version);
      if |head.rest| < 2 {
        ShortHasNoFrame(head.rest);
        ShortIsNoGarbage(head.rest);
      } else {
        DrainReads(head.rest, version);
      }
    }
  }

  lemma AllReadCons(frame: Bytes, tail: seq<Bytes>, version: Protocol)
    ensures AllRead([frame] + tail, version) <==> PacketOf(frame, version).Ok? && AllRead(tail, version)
  {
    hide PacketOf;
    var all := [frame] + tail;
    assert all[0] == frame && forall i :: 0 <= i < |tail| ==> all[i + 1] == tail[i];
    if PacketOf(frame, version).Ok? && AllRead(tail, version) {
      forall i | 0 <= i < |all| ensures PacketOf(all[i], version).Ok? {
        assert i > 0 ==> all[i] == tail[i - 1];
      }
    }
    if AllRead(all, version) {
      forall i | 0 <= i < |tail| ensures PacketOf(tail[i], version).Ok? {
        assert all[i + 1] == tail[i];
      }
    }
  }

  lemma ShortIsNoGarbage(buf: Bytes)
    requires |buf| < 5
    ensures !SplitHead(Remainder(buf)).Garbage?
  {
    hide SplitHead;
    GarbageShape(Remainder(buf));
    RemainderIsShorter(buf);
  }

  lemma {:induction false} RemainderIsShorter(buf: Bytes)
    ensures |Remainder(buf)| <= |buf|
    decreases |buf|
  {
    var head := SplitHead(buf);
    if head.Whole? {
      RemainderIsShorter(head.rest);
    }
  }

  lemma {:induction false} FeedNothing(chunks: seq<Bytes>, version: Protocol)
    requires Flatten(chunks) == []
    ensures Feed([], chunks, version) == Drained([], [], false)
    decreases |chunks|
  {
    hide SplitHead;
    if chunks != [] {
      EmptyHasNoHeader();
      assert [] + chunks[0] == [];
      FeedNothing(chunks[1..], version);
    }
  }

  lemma AllReadPrefix(first: Bytes, more: Bytes, version: Protocol)
    requires AllRead(Frames(first + more), version)
    ensures AllRead(Frames(first), version)
    ensures !SplitHead(Remainder(first)).Garbage? ==>
              Frames(first + more) == Frames(first) + Frames(Remainder(first) + more)
              && AllRead(Frames(Remainder(first) + more), version)
  {
    hide SplitHead, PacketOf;
    if SplitHead(Remainder(first)).Garbage? {
      GarbageStays(first, more);
    } else {
      FramesSoFar(first, more);
      var a, b := Frames(first), Frames(Remainder(first) + more);
      assert forall i :: 0 <= i < |a| ==> (a + b)[i] == a[i];
      assert forall i :: 0 <= i < |b| ==> (a + b)[|a| + i] == b[i];
    }
  }

  /** With nothing behind the malformed length, no cut can separate it from anything. */
  lemma {:induction false} FeedGarbage(buf: Bytes, chunks: seq<Bytes>, version: Protocol)
    requires Frames(buf) == [] && !SplitHead(buf).Garbage?
    requires var stream := buf + Flatten(chunks);
             && AllRead(Frames(stream), version)
             && SplitHead(Remainder(stream)).Garbage? && |Remainder(stream)| == 5
    ensures Feed(buf, chunks, version) == Drained(Frames(buf + Flatten(chunks)), [], true)
    decreases |chunks|
  {
    hide Drain, SplitHead, AllRead;
    if chunks == [] {
      assert buf + Flatten(chunks) == buf;
      RemainderOfNothing(buf);
      assert false;
    } else {
      var more, first := Flatten(chunks[1..]), buf + chunks[0];
      assert buf + Flatten(chunks) == first + more;
      AllReadPrefix(first, more, version);
      DrainReads(first, version);
      if SplitHead(Remainder(first)).Garbage? {
        GarbageStays(first, more);
        GarbageShape(Remainder(first));
        assert more == [];
        FeedNothing(chunks[1..], version);
        assert Frames(first) + [] == Frames(first);
      } else {
        var rest := Remainder(first);
        DrainTakesPrefix(first, more, version);
        NoFrameInRemainder(first);
        FeedGarbage(rest, chunks[1..], version);
      }
    }
  }

  /** Cut at the frames: every frame is taken, well-read or not, and then what comes behind. */
  lemma {:induction false} FeedFrames(stream: Bytes, tail: seq<Bytes>, version: Protocol)
    ensures var e := Feed([], tail, version);
            Feed([], Frames(stream) + tail, version) == Drained(Frames(stream) + e.frames, e.rest, e.discarded)
    ensures Flatten(Frames(stream)) + Remainder(stream) == stream
    decreases |stream|
  {
    hide SplitHead, Drain;
    var head, e := SplitHead(stream), Feed([], tail, version);
    if head.Whole? {
      var others := Frames(head.rest);
      FeedFrames(head.rest, tail, version);
      FrameDrainsAlone(stream, version);
      FeedCons(head.frame, others + tail, version);
      Properties.Reassociate([head.frame], others, tail);
      hide Feed;
      Properties.Reassociate([head.frame], others, e.frames);
      Properties.Reassociate(head.frame, Flatten(others), Remainder(stream));
    } else {
      assert [] + tail == tail && [] + e.frames == e.frames && Flatten([]) + stream == stream;
    }
  }

  lemma FeedCons(frame: Bytes, chunks: seq<Bytes>, version: Protocol)
    requires Drain(frame, version) == Drained([frame], [], false)
    ensures var e := Feed([], chunks, version);
            Feed([], [frame] + chunks, version) == Drained([frame] + e.frames, e.rest, e.discarded)
  {
    hide Drain;
    assert ([frame] + chunks)[1..] == chunks && [] + frame == frame;
  }

  lemma FrameDrainsAlone(stream: Bytes, version: Protocol)
    requires SplitHead(stream).Whole?
    ensures Drain(SplitHead(stream).frame, version) == Drained([SplitHead(stream).frame], [], false)
  {
    hide ReadPacket, SplitHead;
    FrameAlone(stream);
  }

  lemma DrainRemainder(stream: Bytes, version: Protocol)
    ensures Drain(Remainder(stream), version) == Drained([], Kept(stream), SplitHead(Remainder(stream)).Garbage?)
  {
    hide SplitHead, ReadPacket;
    NotWhole(stream);
  }

  lemma {:induction false} NotWhole(stream: Bytes)
    ensures !SplitHead(Remainder(stream)).Whole?
    decreases |stream|
  {
    hide SplitHead;
    var head := SplitHead(stream);
    if head.Whole? {
      NotWhole(head.rest);
    }
  }

  // ----- Chunk independence, exactly -----

  /** Whatever the cut, this is the result. */
  ghost predicate ForEveryCut(stream: Bytes, version: Protocol, d: Drained) {
    forall chunks :: Flatten(chunks) == stream ==> Feed([], chunks, version) == d
  }

  /**
   Every frame but the last reads well; and if the stream reaches a malformed length, the last reads well too and that
   length is the end of the stream.
   */
  ghost predicate CutsAlike(stream: Bytes, version: Protocol) {
    if SplitHead(Remainder(stream)).Garbage?
    then AllRead(Frames(stream), version) && |Remainder(stream)| == 5
    else ReadsToTheEnd(Frames(stream), version)
  }

  lemma CutAtFrames(stream: Bytes, version: Protocol)
    ensures Flatten(Frames(stream) + [Remainder(stream)]) == stream
    ensures Feed([], Frames(stream) + [Remainder(stream)], version) == AllOf(stream)
  {
    hide SplitHead, Drain, Feed, Flatten;
    var r := Remainder(stream);
    FeedFrames(stream, [r], version);
    FlattenSplit(Frames(stream), [r]);
    InOneChunk(r, version);
    DrainRemainder(stream, version);
    assert Frames(stream) + [] == Frames(stream);
  }

  /** Bytes behind a malformed length are thrown away with it in one cut, and kept in another. */
  lemma CutBehindGarbage(stream: Bytes, version: Protocol)
    requires SplitHead(Remainder(stream)).Garbage? && |Remainder(stream)| > 5
    ensures exists chunks :: Flatten(chunks) == stream && Feed([], chunks, version) != AllOf(stream)
  {
    hide SplitHead, Drain, Feed, Flatten;
    var r := Remainder(stream);
    var init, last := r[..|r| - 1], r[|r| - 1..];
    assert init + last == r;
    GarbageShape(r);
    GarbageShape(init);
    var chunks := Frames(stream) + [init, last];
    FeedFrames(stream, [init, last], version);
    FlattenSplit(Frames(stream), [init, last]);
    GarbageThen(init, last, version);
    assert Flatten(chunks) == stream;
    assert Frames(stream) + [] == Frames(stream);
    assert Feed([], chunks, version).rest == last;
  }

  lemma GarbageThen(init: Bytes, last: Bytes, version: Protocol)
    requires SplitHead(init).Garbage? && |last| == 1
    ensures Flatten([init, last]) == init + last
    ensures Feed([], [init, last], version) == Drained([], last, true)
  {
    OneByteHasNoHeader(last);
    hide SplitHead;
    InOneChunk(last, version);
    assert [init, last][1..] == [last];
    assert Flatten([init, last]) == init + Flatten([last]);
    assert [] + init == init && [] + last == last;
    assert Drain(init, version) == Drained([], [], true);
    assert Drain(last, version) == Drained([], last, false);
  }

  lemma OneByteHasNoHeader(s: Bytes)
    requires |s| == 1
    ensures SplitHead(s).NoHeader?
  {
  }

  /**
   Chunk independence, and its exact limits, on every stream: all cuts into chunks give one and the same result if and
   only if no frame before the last fails to read, and nothing is lost with a malformed length but that length itself.
   The result is then all the frames in order, and the incomplete one left in the buffer.
   */
  lemma ChunkIndependence(stream: Bytes, version: Protocol)
    ensures (exists d :: ForEveryCut(stream, version, d)) <==> CutsAlike(stream, version)
    ensures CutsAlike(stream, version) ==> ForEveryCut(stream, version, AllOf(stream))
  {
    hide SplitHead, ReadsToTheEnd, Drain, Feed, Flatten, AllRead, Frames, Remainder;
    if CutsAlike(stream, version) {
      forall chunks | Flatten(chunks) == stream ensures Feed([], chunks, version) == AllOf(stream) {
        FeedAlike(stream, chunks, version);
      }
      assert ForEveryCut(stream, version, AllOf(stream));
    } else {
      forall d ensures !ForEveryCut(stream, version, d) {
        CutAtFrames(stream, version);
        if d == AllOf(stream) {
          SomeCutDiffers(stream, version);
        }
      }
    }
  }

  lemma FeedAlike(stream: Bytes, chunks: seq<Bytes>, version: Protocol)
    requires CutsAlike(stream, version) && Flatten(chunks) == stream
    ensures Feed([], chunks, version) == AllOf(stream)
  {
    hide SplitHead, ReadsToTheEnd, Drain, Feed, Flatten, AllRead;
    assert [] + stream == stream;
    ShortHasNoFrame([]);
    EmptyHasNoHeader();
    if SplitHead(Remainder(stream)).Garbage? {
      FeedGarbage([], chunks, version);
    } else {
      FeedAll([], chunks, version);
    }
  }

  lemma SomeCutDiffers(stream: Bytes, version: Protocol)
    requires !CutsAlike(stream, version)
    ensures exists chunks :: Flatten(chunks) == stream && Feed([], chunks, version) != AllOf(stream)
  {
    hide SplitHead, ReadsToTheEnd, Drain, Feed, Flatten, AllRead, Frames, Remainder;
    var garbage := SplitHead(Remainder(stream)).Garbage?;
    if garbage && AllRead(Frames(stream), version) {
      GarbageShape(Remainder(stream));
      CutBehindGarbage(stream, version);
    } else {
      InOneChunk(stream, version);
      if garbage {
        DrainReads(stream, version);
      } else if !Drain(stream, version).discarded {
        DrainAll(stream, version);
      }
      assert Flatten([stream]) == stream && Feed([], [stream], version) != AllOf(stream);
    }
  }

  lemma InOneChunk(stream: Bytes, version: Protocol)
    ensures Flatten([stream]) == stream
    ensures Feed([], [stream], version) == Drain(stream, version)
  {
    hide Drain;
    assert [stream][1..] == [];
    assert [] + stream == stream && stream + [] == stream;
    var d := Drain(stream, version);
    assert d.frames + [] == d.frames;
  }

  // ----- Streams of written packets -----

  lemma {:induction false} WrittenFrames(written: seq<Bytes>)
    requires forall i :: 0 <= i < |written| ==> SelfDelimiting(written[i])
    ensures Frames(Flatten(written)) == written && Remainder(Flatten(written)) == []
  {
    hide SplitHead;
    if written == [] {
      ShortHasNoFrame([]);
      RemainderOfNothing([]);
    } else {
      var tail := Flatten(written[1..]);
      WholeOfSelf(written[0]);
      SplitStable(written[0], tail);
      assert [] + tail == tail;
      WrittenFrames(written[1..]);
      FramesLater(written[0], tail);
    }
  }

  lemma WholeOfSelf(w: Bytes)
    requires SelfDelimiting(w)
    ensures SplitHead(w).frame == w
  {
    assert SplitHead(w).frame + [] == w;
  }

  /** A concatenation of well-formed packets is parsed back to them, however it is cut, and leaves an empty buffer. */
  lemma WrittenPacketsArrive(written: seq<Bytes>, chunks: seq<Bytes>, version: Protocol)
    requires forall i :: 0 <= i < |written| ==> SelfDelimiting(written[i]) && PacketOf(written[i], version).Ok?
    requires Flatten(chunks) == Flatten(written)
    ensures Feed([], chunks, version) == Drained(written, [], false)
  {
    hide SplitHead, PacketOf, Feed;
    WrittenFrames(written);
    EmptyHasNoHeader();
    assert [] + Flatten(chunks) == Flatten(written);
    assert Frames([]) == [] by { ShortHasNoFrame([]); }
    FeedAll([], chunks, version);
  }

  lemma EmptyHasNoHeader()
    ensures SplitHead([]).NoHeader?
  {
  }

  // ----- The limit, on a concrete stream -----

  /** PINGRESP, which reads in both versions. */
  const PING_RESP: Bytes := [0xD0, 0x00]

  /** A frame of the reserved packet type 0, which never reads. */
  const RESERVED: Bytes := [0x00, 0x00]

  /** In one read the PINGRESP behind a bad frame stays in the buffer; in two reads it is parsed. */
  lemma BadFrameHidesNext(version: Protocol)
    ensures Feed([], [RESERVED + PING_RESP], version) == Drained([RESERVED], PING_RESP, false)
    ensures Feed([], [RESERVED, PING_RESP], version) == Drained([RESERVED, PING_RESP], [], false)
  {
    hide SplitHead, ReadPacket;
    var both := RESERVED + PING_RESP;
    assert Encode(0) == [0];
    assert FrameOf(0x00, []) == RESERVED && FrameOf(0xD0, []) == PING_RESP;
    SplitFrameOf(0x00, [], PING_RESP);
    SplitFrameOf(0x00, [], []);
    SplitFrameOf(0xD0, [], []);
    assert RESERVED + [] == RESERVED && PING_RESP + [] == PING_RESP;
    hide Encode;
    InOneChunk(both, version);
    ReservedFails(version);
    assert Drain(both, version) == Drained([RESERVED], PING_RESP, false);
    assert Drain(RESERVED, version) == Drained([RESERVED], [], false);
    PingRespDrains(version);
    InTwoChunks(RESERVED, PING_RESP, version);
  }

  /** A PINGRESP header whose length runs on for more than four bytes. */
  const ENDLESS: Bytes := [0xD0, 0xFF, 0xFF, 0xFF, 0xFF]

  /** With no bad frame at all: in one read the PINGRESP is thrown away with the malformed length, in two it is parsed. */
  lemma MalformedLengthTakesNext(version: Protocol)
    ensures Feed([], [ENDLESS + PING_RESP], version) == Drained([], [], true)
    ensures Feed([], [ENDLESS, PING_RESP], version) == Drained([PING_RESP], [], true)
  {
    GarbageShape(ENDLESS);
    GarbageShape(ENDLESS + PING_RESP);
    PingRespDrains(version);
    hide SplitHead, ReadPacket;
    InOneChunk(ENDLESS + PING_RESP, version);
    assert Drain(ENDLESS, version) == Drained([], [], true);
    InTwoChunks(ENDLESS, PING_RESP, version);
  }

  lemma PingRespDrains(version: Protocol)
    ensures Drain(PING_RESP, version) == Drained([PING_RESP], [], false)
  {
    assert Encode(0) == [0];
    assert FrameOf(0xD0, []) == PING_RESP && PING_RESP + [] == PING_RESP;
    SplitFrameOf(0xD0, [], []);
    hide SplitHead, ReadPacket, Encode;
  }

  lemma ReservedFails(version: Protocol)
    ensures ReadPacket(FixedHeader(0x00, 2, 0), RESERVED, version).Err?
    ensures ReadPacket(FixedHeader(0xD0, 2, 0), PING_RESP, version).Ok?
  {
  }

  lemma InTwoChunks(a: Bytes, b: Bytes, version: Protocol)
    requires Drain(a, version).rest == []
    ensures var d, e := Drain(a, version), Drain(b, version);
            Feed([], [a, b], version) == Drained(d.frames + e.frames, e.rest, d.discarded || e.discarded)
  {
    hide Drain;
    InOneChunk(b, version);
    assert [a, b][1..] == [b] && [] + a == a;
  }
}
