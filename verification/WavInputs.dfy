/** The WAV decoder on every byte string: each is a header, a list of chunks and what is left, and these decide. */
module WavInputs {
  import opened Wrappers
  import opened Bytes
  import opened Wav

  /** What follows the last whole chunk: less than a chunk header, or a chunk that announces more than there is. */
  datatype Left = Done(tail: seq<byte>) | Cut(tail: seq<byte>)

  function SizeOf(rest: seq<byte>): nat
    requires |rest| >= 8
  {
    FromLittleEndian(rest[4..8])
  }

  function ChunkAt(rest: seq<byte>): Chunk
    requires |rest| >= 8 && 8 + SizeOf(rest) <= |rest|
  {
    var end := 8 + SizeOf(rest);
    Chunk(rest[..4], rest[8..end], if end < |rest| then rest[end] else 0)
  }

  // Past the chunk and its padding, if there is any.
  function Next(rest: seq<byte>): nat
    requires |rest| >= 8 && 8 + SizeOf(rest) <= |rest|
    ensures 8 <= Next(rest) <= |rest|
  {
    var end := 8 + SizeOf(rest);
    if SizeOf(rest) % 2 == 1 && end < |rest| then end + 1 else end
  }

  /** The whole chunks at the front of a byte string, and what is left. */
  function Parse(rest: seq<byte>): (seq<Chunk>, Left)
    decreases |rest|
  {
    if |rest| < 8 then ([], Done(rest))
    else if 8 + SizeOf(rest) > |rest| then ([], Cut(rest))
    else
      var (chunks, left) := Parse(rest[Next(rest)..]);
      ([ChunkAt(rest)] + chunks, left)
  }

  lemma SizeIsSmall(rest: seq<byte>)
    requires |rest| >= 8
    ensures SizeOf(rest) < TWO_32
  {
    FromLittleEndianBound(rest[4..8]);
    Widths();
  }

  lemma SizeSpelled(rest: seq<byte>)
    requires |rest| >= 8
    ensures LE32(SizeOf(rest)) == rest[4..8]
  {
    LittleEndianOfFour(rest[4..8]);
    SizeIsSmall(rest);
  }

  lemma {:induction false} LittleEndianOfFour(s: seq<byte>)
    ensures LittleEndian(FromLittleEndian(s), |s|) == s
  {
    if s != [] {
      var rest := FromLittleEndian(s[1..]);
      LittleEndianOfFour(s[1..]);
      LowByte(s[0], rest);
      assert FromLittleEndian(s) == s[0] + 256 * rest;
      assert LittleEndian(s[0] + 256 * rest, |s|)
             == [(s[0] + 256 * rest) % 256] + LittleEndian((s[0] + 256 * rest) / 256, |s| - 1);
      hide LittleEndian, FromLittleEndian;
      assert [s[0]] + s[1..] == s;
    }
  }

  lemma LowByte(b: byte, rest: nat)
    ensures (b + 256 * rest) % 256 == b && (b + 256 * rest) / 256 == rest
  {
  }

  /** Nothing is lost or made up: the chunks serialised, with the padding of the last if it was there, and what is left
      are the byte string. */
  lemma {:induction false} ParseInverts(rest: seq<byte>)
    ensures var (chunks, left) := Parse(rest);
            && (forall c :: c in chunks ==> WellFormed(c))
            && (rest == Serialise(chunks, true) + left.tail
                || (left.tail == [] && rest == Serialise(chunks, false)))
            && match left
               case Done(tail) => |tail| < 8
               case Cut(tail) => |tail| >= 8 && 8 + FromLittleEndian(tail[4..8]) > |tail|
    decreases |rest|
  {
    if |rest| >= 8 && 8 + SizeOf(rest) <= |rest| {
      SizeIsSmall(rest);
      var (chunks, left) := Parse(rest[Next(rest)..]);
      ParseInverts(rest[Next(rest)..]);
      FirstChunk(rest);
      SerialiseFront(ChunkAt(rest), chunks, rest, left.tail);
    }
  }

  lemma FirstChunk(rest: seq<byte>)
    requires |rest| >= 8 && 8 + SizeOf(rest) <= |rest|
    ensures var c := ChunkAt(rest);
            var end := 8 + SizeOf(rest);
            && |c.id| == 4 && |c.body| == SizeOf(rest)
            && rest[..end] == ChunkBytes(c)
            && rest[end..Next(rest)] == if end < |rest| then Padding(c) else []
  {
    SizeSpelled(rest);
    var end := 8 + SizeOf(rest);
    assert rest[..end] == rest[..4] + rest[4..8] + rest[8..end];
  }

  lemma SerialiseCons(c: Chunk, chunks: seq<Chunk>, padLast: bool)
    ensures Serialise([c] + chunks, padLast)
            == ChunkBytes(c) + ((if chunks == [] && !padLast then [] else Padding(c)) + Serialise(chunks, padLast))
  {
    hide ChunkBytes, Padding;
    assert ([c] + chunks)[1..] == chunks;
  }

  lemma CutInThree(s: seq<byte>, i: nat, j: nat)
    requires i <= j <= |s|
    ensures s == s[..i] + (s[i..j] + s[j..])
  {
  }

  lemma SerialiseFront(c: Chunk, chunks: seq<Chunk>, rest: seq<byte>, tail: seq<byte>)
    requires |rest| >= 8 && 8 + SizeOf(rest) <= |rest| && c == ChunkAt(rest)
    requires var after := rest[Next(rest)..];
             after == Serialise(chunks, true) + tail || (tail == [] && after == Serialise(chunks, false))
    ensures rest == Serialise([c] + chunks, true) + tail || (tail == [] && rest == Serialise([c] + chunks, false))
  {
    FirstChunk(rest);
    var end := 8 + SizeOf(rest);
    var after := rest[Next(rest)..];
    var padding := rest[end..Next(rest)];
    CutInThree(rest, end, Next(rest));
    SerialiseCons(c, chunks, true);
    SerialiseCons(c, chunks, false);
    var none: seq<byte> := [];
    if chunks == [] {
      EmptySerialises();
      if end == |rest| {
        assert padding == none && after == none && |Serialise(chunks, true)| == 0;
        assert none + none == none;
        assert tail == none;
      } else {
        GroupFour(ChunkBytes(c), Padding(c), Serialise(chunks, true), tail);
        assert none + tail == tail && none + none == none && Padding(c) + none == Padding(c);
      }
    } else {
      assert after != none by {
        NonemptySerialises(chunks);
      }
      GroupFour(ChunkBytes(c), Padding(c), Serialise(chunks, true), tail);
    }
    hide Serialise, ChunkBytes, Padding, ChunkAt, Next, SizeOf;
  }

  lemma EmptySerialises()
    ensures Serialise([], true) == [] && Serialise([], false) == []
  {
  }

  lemma NonemptySerialises(chunks: seq<Chunk>)
    requires chunks != []
    ensures |Serialise(chunks, true)| > 0 && |Serialise(chunks, false)| > 0
  {
  }

  lemma GroupFour(a: seq<byte>, b: seq<byte>, c: seq<byte>, d: seq<byte>)
    ensures a + (b + (c + d)) == a + (b + c) + d
  {
    Reassociate(b, c, d);
    Reassociate(a, b + c, d);
  }

  // ---------- The decoder ----------

  function From(data: seq<byte>, offset: nat): seq<byte> {
    if offset <= |data| then data[offset..] else []
  }

  lemma {:induction false} ScanIsParse(data: seq<byte>, offset: nat, f: Found)
    ensures var (chunks, left) := Parse(From(data, offset));
            ScanFrom(data, offset, f)
            == match TakeAll(f, chunks)
               case Failure(e) => Failure(e)
               case Success(f') => if left.Cut? then Failure(ErrChunkTooLong) else Success(f')
    decreases |data| + 8 - offset
  {
    hide TakeChunk, FromLittleEndian, ScanFrom, Parse, TakeAll, SizeOf, ChunkAt, Next;
    var rest := From(data, offset);
    ParseOne(rest);
    TakeOne(f, []);
    if offset + 8 > |data| {
      ScanEnd(data, offset, f);
    } else if 8 + SizeOf(rest) > |rest| {
      ScanCut(data, offset, f);
    } else {
      var c, next := ChunkAt(rest), offset + 8 + SizeOf(rest) + SizeOf(rest) % 2;
      ScanStep(data, offset, f);
      NextFrom(data, offset);
      hide From;
      var chunks := Parse(From(data, next)).0;
      TakeOne(f, [c] + chunks);
      assert ([c] + chunks)[0] == c && ([c] + chunks)[1..] == chunks;
      if TakeChunk(f, c.id, c.body).Success? {
        ScanIsParse(data, next, TakeChunk(f, c.id, c.body).value);
      }
    }
  }

  lemma SizeThere(data: seq<byte>, offset: nat)
    requires offset + 8 <= |data|
    ensures SizeOf(From(data, offset)) == FromLittleEndian(data[offset + 4..offset + 8])
    ensures From(data, offset)[..4] == data[offset..offset + 4]
  {
    SliceOfSlice(data, offset, 0, 4);
    SliceOfSlice(data, offset, 4, 8);
    hide FromLittleEndian;
  }

  lemma ScanStep(data: seq<byte>, offset: nat, f: Found)
    requires offset + 8 <= |data| && offset + 8 + SizeOf(From(data, offset)) <= |data|
    ensures var rest := From(data, offset);
            var c := ChunkAt(rest);
            ScanFrom(data, offset, f)
            == match TakeChunk(f, c.id, c.body)
               case Failure(e) => Failure(e)
               case Success(f') => ScanFrom(data, offset + 8 + SizeOf(rest) + SizeOf(rest) % 2, f')
  {
    hide TakeChunk, ScanFrom, FromLittleEndian;
    SizeThere(data, offset);
    var rest := From(data, offset);
    SliceOfSlice(data, offset, 8, 8 + SizeOf(rest));
    ScanChunk(data, offset, f, ChunkAt(rest));
  }

  lemma NextFrom(data: seq<byte>, offset: nat)
    requires offset + 8 <= |data| && offset + 8 + SizeOf(From(data, offset)) <= |data|
    ensures var rest := From(data, offset);
            From(data, offset + 8 + SizeOf(rest) + SizeOf(rest) % 2) == rest[Next(rest)..]
  {
    hide SizeOf;
    var rest := From(data, offset);
    SliceOfSlice(data, offset, Next(rest), Next(rest));
  }

  lemma ScanCut(data: seq<byte>, offset: nat, f: Found)
    requires offset + 8 <= |data| && offset + 8 + SizeOf(From(data, offset)) > |data|
    ensures ScanFrom(data, offset, f) == Failure(ErrChunkTooLong)
  {
    SizeThere(data, offset);
    hide SizeOf, FromLittleEndian;
  }

  lemma ParseOne(rest: seq<byte>)
    ensures Parse(rest)
            == if |rest| < 8 then ([], Done(rest))
               else if 8 + SizeOf(rest) > |rest| then ([], Cut(rest))
               else ([ChunkAt(rest)] + Parse(rest[Next(rest)..]).0, Parse(rest[Next(rest)..]).1)
  {
  }

  lemma TakeOne(f: Found, chunks: seq<Chunk>)
    ensures TakeAll(f, chunks)
            == if chunks == [] then Success(f)
               else if TakeChunk(f, chunks[0].id, chunks[0].body).Failure? then
                 Failure(TakeChunk(f, chunks[0].id, chunks[0].body).error)
               else TakeAll(TakeChunk(f, chunks[0].id, chunks[0].body).value, chunks[1..])
  {
    hide TakeChunk;
  }

  /** Long enough, and RIFF and WAVE in their places. */
  predicate HasHeader(data: seq<byte>) {
    |data| >= 44 && data[..4] == [82, 73, 70, 70] && data[8..12] == [87, 65, 86, 69]
  }

  /** On every byte string: what is decoded is the last data chunk, exactly when the header is there, every chunk is
      whole and the chunks are playable. */
  lemma DecodesExactly(data: seq<byte>, pcm: seq<byte>)
    ensures DecodeWav(data) == Success(pcm)
            <==> && HasHeader(data)
                 && var (chunks, left) := Parse(data[12..]);
                    left.Done? && Playable(chunks) && Last(chunks, DATA) == Some(pcm)
  {
    if HasHeader(data) {
      ScanIsParse(data, 12, NOTHING);
      TakeAllFindsLast(Parse(data[12..]).0);
    }
    hide ScanFrom, Parse, TakeAll, FromLittleEndian;
  }

  /** The place of the first fmt chunk that is too short or not PCM. */
  function FirstBadFmt(chunks: seq<Chunk>): Option<nat> {
    if chunks == [] then None
    else if chunks[0].id == FMT && !GoodFmt(chunks[0].body) then Some(0)
    else match FirstBadFmt(chunks[1..]) case None => None case Some(k) => Some(k + 1)
  }

  lemma {:induction false} TakeAllErrors(f: Found, chunks: seq<Chunk>)
    ensures match FirstBadFmt(chunks)
            case None => TakeAll(f, chunks).Success?
            case Some(k) =>
              && k < |chunks|
              && TakeAll(f, chunks) == Failure(if |chunks[k].body| < 16 then ErrFmtTooSmall else ErrNotPCM)
    decreases |chunks|
  {
    hide FromLittleEndian;
    if chunks != [] {
      match TakeChunk(f, chunks[0].id, chunks[0].body)
      case Failure(_) =>
      case Success(f') => TakeAllErrors(f', chunks[1..]);
    }
  }

  /** Which error every other byte string gets. */
  lemma DecodeErrors(data: seq<byte>)
    ensures DecodeWav(data) == Failure(ErrTooSmall) <==> |data| < 44
    ensures DecodeWav(data) == Failure(ErrNotRiff) <==> |data| >= 44 && !HasHeader(data)
    ensures HasHeader(data) ==>
              var (chunks, left) := Parse(data[12..]);
              var bad := FirstBadFmt(chunks);
              var r := DecodeWav(data);
              && (r == Failure(ErrFmtTooSmall) <==>
                    bad.Some? && bad.value < |chunks| && |chunks[bad.value].body| < 16)
              && (r == Failure(ErrNotPCM) <==>
                    bad.Some? && bad.value < |chunks| && |chunks[bad.value].body| >= 16)
              && (r == Failure(ErrChunkTooLong) <==> bad.None? && left.Cut?)
              && (r == Failure(ErrMissingChunk) <==>
                    bad.None? && left.Done? && (Last(chunks, FMT).None? || Last(chunks, DATA).None?))
              && (r == Failure(ErrWrongFormat) <==>
                    && bad.None? && left.Done? && Last(chunks, FMT).Some? && Last(chunks, DATA).Some?
                    && !(|Last(chunks, FMT).value| >= 16 && VoiceFmt(Last(chunks, FMT).value)))
  {
    if HasHeader(data) {
      var chunks := Parse(data[12..]).0;
      ScanIsParse(data, 12, NOTHING);
      TakeAllFindsLast(chunks);
      TakeAllErrors(NOTHING, chunks);
    }
    hide ScanFrom, Parse, TakeAll, FromLittleEndian, FirstBadFmt, Last;
  }
}
