/** Cutting PCM into fixed-size frames: all at once on the Mac, incrementally on the phone. */
module Frames {
  import opened Wrappers
  import opened Bytes

  const DEFAULT_FRAME_SIZE: nat := 640

  function Split(data: seq<byte>, size: nat): seq<seq<byte>>
    requires size > 0
  {
    if data == [] then []
    else if |data| < size then [data]
    else [data[..size]] + Split(data[size..], size)
  }

  function FrameSize(size: int): (r: nat)
    ensures r > 0 && (size > 0 ==> r == size)
  {
    if size <= 0 then DEFAULT_FRAME_SIZE else size
  }

  method SplitPCMFrames(pcm: seq<byte>, frameSize: int) returns (frames: seq<seq<byte>>)
    ensures frames == Split(pcm, FrameSize(frameSize)) == Split(pcm, if frameSize <= 0 then 640 else frameSize)
  {
    var size := FrameSize(frameSize);
    var data := pcm;
    frames := [];
    while |data| > 0
      invariant Split(pcm, size) == frames + Split(data, size)
      decreases |data|
    {
      var next := size;
      if |data| < size {
        next := |data|;
      }
      assert |data| < size ==> data[..next] == data && data[next..] == [];
      Reassociate(frames, [data[..next]], Split(data[next..], size));
      frames := frames + [data[..next]];
      data := data[next..];
    }
    assert frames + [] == frames;
  }

  /** Every frame full, except that the last may be shorter but not empty. */
  predicate Framed(frames: seq<seq<byte>>, size: nat) {
    && (forall i :: 0 <= i < |frames| - 1 ==> |frames[i]| == size)
    && (frames != [] ==> 0 < |frames[|frames| - 1]| <= size)
  }

  lemma {:induction false} SplitIsFramed(data: seq<byte>, size: nat)
    requires size > 0
    ensures Framed(Split(data, size), size)
    ensures Flatten(Split(data, size)) == data
    ensures data != [] ==> Split(data, size) != []
  {
    if data == [] {
    } else if |data| < size {
      assert data + [] == data;
      assert Flatten([data][1..]) == [];
    } else {
      var head, rest := data[..size], Split(data[size..], size);
      SplitIsFramed(data[size..], size);
      var all := [head] + rest;
      assert all[1..] == rest && head + data[size..] == data;
      assert forall i :: 1 <= i < |all| ==> all[i] == rest[i - 1];
    }
  }

  /** Splitting is the only way to cut a byte string into such frames. */
  lemma {:induction false} SplitIsUnique(frames: seq<seq<byte>>, size: nat)
    requires size > 0
    ensures Split(Flatten(frames), size) == frames <==> Framed(frames, size)
  {
    SplitIsFramed(Flatten(frames), size);
    if Framed(frames, size) && frames != [] {
      var data, rest := Flatten(frames), frames[1..];
      if rest == [] {
        assert Flatten(rest) == [] && frames[0] + [] == frames[0];
        assert data == frames[0] && frames == [frames[0]];
        if |data| == size {
          assert data[..size] == data && data[size..] == [];
        }
      } else {
        assert |frames[0]| == size;
        assert data[..size] == frames[0] && data[size..] == Flatten(rest);
        assert forall i :: 0 <= i < |rest| - 1 ==> rest[i] == frames[i + 1];
        assert rest[|rest| - 1] == frames[|frames| - 1];
        assert Framed(rest, size);
        SplitIsUnique(rest, size);
        assert frames == [frames[0]] + rest;
      }
    }
  }

  // ---------- The incremental accumulator ----------

  /** The whole frames at the front of `s`. */
  function Full(s: seq<byte>, size: nat): seq<seq<byte>>
    requires size > 0
  {
    if |s| < size then [] else [s[..size]] + Full(s[size..], size)
  }

  /** What follows them: less than a frame. */
  function Rest(s: seq<byte>, size: nat): (r: seq<byte>)
    requires size > 0
    ensures |r| < size
  {
    if |s| < size then s else Rest(s[size..], size)
  }

  function Padded(frame: seq<byte>, size: nat): seq<byte> {
    if |frame| < size then frame + Zeros(size - |frame|) else frame
  }

  class PCMFrameAccumulator {
    const frameByteCount: nat
    var buffer: seq<byte>

    ghost predicate Valid()
      reads this
    {
      |buffer| < frameByteCount
    }

    // With no bytes per frame the loop in `Append` would never end.
    constructor (frameByteCount: nat)
      requires frameByteCount > 0
      ensures Valid() && this.frameByteCount == frameByteCount && buffer == []
    {
      this.frameByteCount := frameByteCount;
      buffer := [];
    }

    method Append(data: seq<byte>) returns (frames: seq<seq<byte>>)
      requires Valid()
      modifies this
      ensures Valid()
      ensures frames == Full(old(buffer) + data, frameByteCount)
      ensures buffer == Rest(old(buffer) + data, frameByteCount)
    {
      buffer := buffer + data;
      ghost var whole := buffer;
      frames := [];
      while |buffer| >= frameByteCount
        invariant Full(whole, frameByteCount) == frames + Full(buffer, frameByteCount)
        invariant Rest(whole, frameByteCount) == Rest(buffer, frameByteCount)
        decreases |buffer|
      {
        Reassociate(frames, [buffer[..frameByteCount]], Full(buffer[frameByteCount..], frameByteCount));
        frames := frames + [buffer[..frameByteCount]];
        buffer := buffer[frameByteCount..];
      }
      assert frames + [] == frames;
    }

    method FlushPaddedFrame() returns (frame: Option<seq<byte>>)
      requires Valid()
      modifies this
      ensures Valid() && buffer == []
      ensures frame == if old(buffer) == [] then None else Some(Padded(old(buffer), frameByteCount))
    {
      if buffer == [] {
        return None;
      }
      var padded := buffer;
      buffer := [];
      if |padded| < frameByteCount {
        padded := padded + Zeros(frameByteCount - |padded|);
      }
      frame := Some(padded);
    }
  }

  /** The frames emitted for a list of chunks appended one after another, and what is then buffered. */
  function Feed(chunks: seq<seq<byte>>, size: nat): (seq<seq<byte>>, seq<byte>)
    requires size > 0
  {
    if chunks == [] then ([], [])
    else
      var (emitted, buffer) := Feed(chunks[..|chunks| - 1], size);
      var s := buffer + chunks[|chunks| - 1];
      (emitted + Full(s, size), Rest(s, size))
  }

  /** All frames produced by appending the chunks and then flushing. */
  function FeedAndFlush(chunks: seq<seq<byte>>, size: nat): seq<seq<byte>>
    requires size > 0
  {
    var (emitted, buffer) := Feed(chunks, size);
    if buffer == [] then emitted else emitted + [Padded(buffer, size)]
  }

  /** The frames with the last one zero-padded to full size. */
  function PadLast(frames: seq<seq<byte>>, size: nat): seq<seq<byte>> {
    if frames == [] then [] else frames[..|frames| - 1] + [Padded(frames[|frames| - 1], size)]
  }

  /** The accumulator, fed a list of chunks and flushed, does what `Feed` and the flush say. */
  method Accumulate(chunks: seq<seq<byte>>, size: nat) returns (frames: seq<seq<byte>>)
    requires size > 0
    ensures frames == FeedAndFlush(chunks, size)
  {
    var accumulator := new PCMFrameAccumulator(size);
    frames := [];
    for i := 0 to |chunks|
      invariant fresh(accumulator) && accumulator.Valid() && accumulator.frameByteCount == size
      invariant Feed(chunks[..i], size) == (frames, accumulator.buffer)
    {
      var more := accumulator.Append(chunks[i]);
      frames := frames + more;
      assert chunks[..i + 1][..i] == chunks[..i];
    }
    assert chunks[..|chunks|] == chunks;
    var last := accumulator.FlushPaddedFrame();
    if last.Some? {
      frames := frames + [last.value];
    }
  }

  lemma {:induction false} FullThenMore(s: seq<byte>, more: seq<byte>, size: nat)
    requires size > 0
    ensures Full(s + more, size) == Full(s, size) + Full(Rest(s, size) + more, size)
    ensures Rest(s + more, size) == Rest(Rest(s, size) + more, size)
  {
    if |s| >= size {
      FullThenMore(s[size..], more, size);
      assert (s + more)[..size] == s[..size] && (s + more)[size..] == s[size..] + more;
      Reassociate([s[..size]], Full(s[size..], size), Full(Rest(s, size) + more, size));
    } else {
      assert [] + Full(s + more, size) == Full(s + more, size);
    }
  }

  lemma {:induction false} FeedIsWhole(chunks: seq<seq<byte>>, size: nat)
    requires size > 0
    ensures Feed(chunks, size) == (Full(Flatten(chunks), size), Rest(Flatten(chunks), size))
  {
    if chunks != [] {
      var before, last := chunks[..|chunks| - 1], chunks[|chunks| - 1];
      FeedIsWhole(before, size);
      FlattenAppend(before, [last]);
      assert chunks == before + [last] && last + [] == last;
      assert Flatten([last]) == last + Flatten([]);
      FullThenMore(Flatten(before), last, size);
    }
  }

  lemma PadLastAfterHead(head: seq<byte>, frames: seq<seq<byte>>, size: nat)
    requires |head| == size
    ensures PadLast([head] + frames, size) == [head] + PadLast(frames, size)
  {
    var all := [head] + frames;
    if frames == [] {
      assert all == [head] && all[..0] == [];
      assert [] + [head] == [head] + [];
    } else {
      assert all[..|all| - 1] == [head] + frames[..|frames| - 1];
      Reassociate([head], frames[..|frames| - 1], [Padded(all[|all| - 1], size)]);
    }
  }

  lemma {:induction false} FullAndRestAreSplit(s: seq<byte>, size: nat)
    requires size > 0
    ensures Full(s, size) + (if Rest(s, size) == [] then [] else [Padded(Rest(s, size), size)])
            == PadLast(Split(s, size), size)
    ensures Flatten(Full(s, size)) + Rest(s, size) == s
  {
    if |s| >= size {
      var head, tail := s[..size], s[size..];
      FullAndRestAreSplit(tail, size);
      SplitIsFramed(tail, size);
      var flushed := if Rest(s, size) == [] then [] else [Padded(Rest(s, size), size)];
      Reassociate([head], Full(tail, size), flushed);
      Reassociate(head, Flatten(Full(tail, size)), Rest(tail, size));
      assert ([head] + Full(tail, size))[1..] == Full(tail, size);
      assert head + tail == s;
      PadLastAfterHead(head, Split(tail, size), size);
    } else if s != [] {
      assert [s][..0] == [] && [] + [Padded(s, size)] == [Padded(s, size)];
      assert [] + s == s;
    }
  }

  /** However a byte stream is cut into chunks, the accumulator emits the frames of the whole stream, the last one
      zero-padded; and between calls nothing is lost and less than a frame is held back. */
  lemma ChunkingDoesNotMatter(chunks: seq<seq<byte>>, size: nat)
    requires size > 0
    ensures FeedAndFlush(chunks, size) == PadLast(Split(Flatten(chunks), size), size)
    ensures var (emitted, buffered) := Feed(chunks, size);
            Flatten(emitted) + buffered == Flatten(chunks) && |buffered| < size
  {
    FeedIsWhole(chunks, size);
    FullAndRestAreSplit(Flatten(chunks), size);
    var (emitted, buffer) := Feed(chunks, size);
    if buffer == [] {
      assert emitted + [] == emitted;
    }
  }
}
