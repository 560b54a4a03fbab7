/** RIFF/WAVE encoding of captured PCM, and the decoder that reads fixtures back. */
module Wav {
  import opened Wrappers
  import opened Bytes
  import opened Protocol
  import opened Frames

  const RIFF: seq<byte> := [82, 73, 70, 70]
  const WAVE: seq<byte> := [87, 65, 86, 69]
  const FMT: seq<byte> := [102, 109, 116, 32]
  const DATA: seq<byte> := [100, 97, 116, 97]

  datatype WavError =
    | ErrTooSmall
    | ErrNotRiff
    | ErrChunkTooLong
    | ErrFmtTooSmall
    | ErrNotPCM
    | ErrMissingChunk
    | ErrWrongFormat

  // ---------- Encoding ----------

  function LE16(n: int): (r: seq<byte>)
    ensures |r| == 2
  {
    LittleEndian(n % 0x1_0000, 2)
  }

  function LE32(n: int): (r: seq<byte>)
    ensures |r| == 4
  {
    LittleEndian(n % 0x1_0000_0000, 4)
  }

  function FmtBody(m: AudioMetadata): (r: seq<byte>)
    ensures |r| == 16
  {
    LE16(1) + LE16(m.channels) + LE32(m.sampleRate) + LE32(m.sampleRate * m.channels * 2)
    + LE16(m.channels * 2) + LE16(16)
  }

  // The length as an unsigned 32-bit integer.
  function DataSize(pcm: seq<byte>): uint32 {
    |pcm| % 0x1_0000_0000
  }

  function EncodeWav(pcm: seq<byte>, m: AudioMetadata): seq<byte> {
    RIFF + LE32(36 + DataSize(pcm)) + WAVE
    + FMT + LE32(16)
    + LE16(1) + LE16(m.channels) + LE32(m.sampleRate) + LE32(m.sampleRate * m.channels * 2)
    + LE16(m.channels * 2) + LE16(16)
    + DATA + LE32(DataSize(pcm)) + pcm
  }

  method EncodePCM16WAV(pcm: seq<byte>, m: AudioMetadata) returns (out: seq<byte>)
    ensures out == EncodeWav(pcm, m)
  {
    hide LE16, LE32, DataSize;
    var dataSize: int := DataSize(pcm);
    var byteRate := m.sampleRate * m.channels * 2;
    var blockAlign := m.channels * 2;
    out := RIFF;
    out := out + LE32(36 + dataSize);
    out := out + WAVE;
    out := out + FMT;
    out := out + LE32(16);
    out := out + LE16(1);
    out := out + LE16(m.channels);
    out := out + LE32(m.sampleRate);
    out := out + LE32(byteRate);
    out := out + LE16(blockAlign);
    out := out + LE16(16);
    out := out + DATA;
    out := out + LE32(dataSize);
    out := out + pcm;
  }

  // ---------- Decoding ----------

  datatype Found = Found(
    format: bool,
    data: bool,
    channels: nat,
    sampleRate: nat,
    bitsPerSample: nat,
    pcm: seq<byte>)

  const NOTHING: Found := Found(false, false, 0, 0, 0, [])

  /** What one chunk adds to what has been found. */
  function TakeChunk(f: Found, id: seq<byte>, body: seq<byte>): Result<Found, WavError> {
    if id == FMT then
      if |body| < 16 then Failure(ErrFmtTooSmall)
      else if FromLittleEndian(body[..2]) != 1 then Failure(ErrNotPCM)
      else Success(f.(format := true, channels := FromLittleEndian(body[2..4]),
                      sampleRate := FromLittleEndian(body[4..8]), bitsPerSample := FromLittleEndian(body[14..16])))
    else if id == DATA then Success(f.(data := true, pcm := body))
    else Success(f)
  }

  function ScanFrom(data: seq<byte>, offset: nat, f: Found): Result<Found, WavError>
    decreases |data| + 8 - offset
  {
    if offset + 8 > |data| then Success(f)
    else
      var size := FromLittleEndian(data[offset + 4..offset + 8]);
      var body := offset + 8;
      if body + size > |data| then Failure(ErrChunkTooLong)
      else
        match TakeChunk(f, data[offset..offset + 4], data[body..body + size])
        case Failure(e) => Failure(e)
        case Success(f') => ScanFrom(data, body + size + size % 2, f')
  }

  function Verdict(f: Found): Result<seq<byte>, WavError> {
    if !f.format || !f.data then Failure(ErrMissingChunk)
    else if f.channels != 1 || f.sampleRate != 16000 || f.bitsPerSample != 16 then Failure(ErrWrongFormat)
    else Success(f.pcm)
  }

  function DecodeWav(data: seq<byte>): Result<seq<byte>, WavError> {
    if |data| < 44 then Failure(ErrTooSmall)
    else if data[0..4] != RIFF || data[8..12] != WAVE then Failure(ErrNotRiff)
    else
      match ScanFrom(data, 12, NOTHING)
      case Failure(e) => Failure(e)
      case Success(f) => Verdict(f)
  }

  method DecodePCM16LEWAV(data: seq<byte>) returns (r: Result<seq<byte>, WavError>)
    ensures r == DecodeWav(data)
  {
    hide FromLittleEndian;
    if |data| < 44 {
      return Failure(ErrTooSmall);
    }
    if data[0..4] != RIFF || data[8..12] != WAVE {
      return Failure(ErrNotRiff);
    }
    var formatFound, dataFound := false, false;
    var channels, sampleRate, bitsPerSample: nat := 0, 0, 0;
    var pcm: seq<byte> := [];
    var offset := 12;
    ghost var goal := ScanFrom(data, 12, NOTHING);
    while offset + 8 <= |data|
      invariant 0 <= offset
      invariant goal == ScanFrom(data, offset, Found(formatFound, dataFound, channels, sampleRate, bitsPerSample, pcm))
      decreases |data| + 8 - offset
    {
      var chunkID := data[offset..offset + 4];
      var chunkSize := FromLittleEndian(data[offset + 4..offset + 8]);
      offset := offset + 8;
      if offset + chunkSize > |data| {
        return Failure(ErrChunkTooLong);
      }
      var chunk := data[offset..offset + chunkSize];
      if chunkID == FMT {
        if |chunk| < 16 {
          return Failure(ErrFmtTooSmall);
        }
        var audioFormat := FromLittleEndian(chunk[0..2]);
        channels := FromLittleEndian(chunk[2..4]);
        sampleRate := FromLittleEndian(chunk[4..8]);
        bitsPerSample := FromLittleEndian(chunk[14..16]);
        if audioFormat != 1 {
          return Failure(ErrNotPCM);
        }
        formatFound := true;
      } else if chunkID == DATA {
        pcm := chunk;
        dataFound := true;
      }
      offset := offset + chunkSize;
      if chunkSize % 2 == 1 {
        offset := offset + 1;
      }
    }
    if !formatFound || !dataFound {
      return Failure(ErrMissingChunk);
    }
    if channels != 1 || sampleRate != 16000 || bitsPerSample != 16 {
      return Failure(ErrWrongFormat);
    }
    r := Success(pcm);
  }

  /** `LoadWAVFrames` once the file is read. */
  method WavFrames(data: seq<byte>, frameSize: int) returns (r: Result<seq<seq<byte>>, WavError>)
    ensures r == match DecodeWav(data)
                 case Failure(e) => Failure(e)
                 case Success(pcm) => Success(Split(pcm, FrameSize(frameSize)))
  {
    var decoded := DecodePCM16LEWAV(data);
    match decoded {
      case Failure(e) => r := Failure(e);
      case Success(pcm) =>
        var frames := SplitPCMFrames(pcm, frameSize);
        r := Success(frames);
    }
  }

  // ---------- Chunk lists ----------

  /** A chunk, and the padding byte that follows it when its length is odd. */
  datatype Chunk = Chunk(id: seq<byte>, body: seq<byte>, pad: byte)

  predicate WellFormed(c: Chunk) {
    |c.id| == 4 && |c.body| < TWO_32
  }

  function ChunkBytes(c: Chunk): seq<byte> {
    c.id + LE32(|c.body|) + c.body
  }

  function Padding(c: Chunk): seq<byte> {
    if |c.body| % 2 == 1 then [c.pad] else []
  }

  /** Chunks back to back, each odd one padded; the padding of the last may be missing. */
  function Serialise(chunks: seq<Chunk>, padLast: bool): seq<byte> {
    if chunks == [] then []
    else
      ChunkBytes(chunks[0])
      + ((if |chunks| == 1 && !padLast then [] else Padding(chunks[0])) + Serialise(chunks[1..], padLast))
  }

  function Riff(chunks: seq<Chunk>, size: seq<byte>, padLast: bool): seq<byte>
    requires |size| == 4
  {
    RIFF + size + WAVE + Serialise(chunks, padLast)
  }

  predicate GoodFmt(body: seq<byte>) {
    |body| >= 16 && FromLittleEndian(body[..2]) == 1
  }

  /** 16 kHz, mono, 16 bits. */
  predicate VoiceFmt(body: seq<byte>)
    requires |body| >= 16
  {
    && FromLittleEndian(body[2..4]) == 1
    && FromLittleEndian(body[4..8]) == 16000
    && FromLittleEndian(body[14..16]) == 16
  }

  /** The body of the last chunk with this id. */
  function Last(chunks: seq<Chunk>, id: seq<byte>): Option<seq<byte>> {
    if chunks == [] then None
    else if chunks[|chunks| - 1].id == id then Some(chunks[|chunks| - 1].body)
    else Last(chunks[..|chunks| - 1], id)
  }

  /** Every fmt chunk is PCM of at least 16 bytes, the last one is voice, and there is data. */
  predicate Playable(chunks: seq<Chunk>) {
    && (forall c :: c in chunks && c.id == FMT ==> GoodFmt(c.body))
    && Last(chunks, DATA).Some?
    && match Last(chunks, FMT)
       case None => false
       case Some(body) => |body| >= 16 && VoiceFmt(body)
  }

  function TakeAll(f: Found, chunks: seq<Chunk>): Result<Found, WavError>
    decreases |chunks|
  {
    if chunks == [] then Success(f)
    else
      match TakeChunk(f, chunks[0].id, chunks[0].body)
      case Failure(e) => Failure(e)
      case Success(f') => TakeAll(f', chunks[1..])
  }

  lemma {:induction false} TakeAllSnoc(f: Found, chunks: seq<Chunk>, last: Chunk)
    ensures TakeAll(f, chunks + [last])
            == match TakeAll(f, chunks)
               case Failure(e) => Failure(e)
               case Success(f') => TakeChunk(f', last.id, last.body)
    decreases |chunks|
  {
    hide TakeChunk;
    var all := chunks + [last];
    if chunks == [] {
      assert all[0] == last && all[1..] == [];
      assert TakeAll(f, all[1..]) == Success(f);
    } else {
      assert all[0] == chunks[0] && all[1..] == chunks[1..] + [last];
      match TakeChunk(f, chunks[0].id, chunks[0].body)
      case Failure(_) =>
      case Success(f') => TakeAllSnoc(f', chunks[1..], last);
    }
  }

  /** What taking the chunks in order finds is the last fmt chunk and the last data chunk. */
  lemma {:induction false} TakeAllFindsLast(chunks: seq<Chunk>)
    ensures TakeAll(NOTHING, chunks).Success? <==> forall c :: c in chunks && c.id == FMT ==> GoodFmt(c.body)
    ensures match TakeAll(NOTHING, chunks)
            case Failure(_) => true
            case Success(f) =>
              && f.format == Last(chunks, FMT).Some?
              && f.data == Last(chunks, DATA).Some?
              && (f.data ==> f.pcm == Last(chunks, DATA).value)
              && (f.format ==>
                    var body := Last(chunks, FMT).value;
                    && |body| >= 16
                    && f.channels == FromLittleEndian(body[2..4])
                    && f.sampleRate == FromLittleEndian(body[4..8])
                    && f.bitsPerSample == FromLittleEndian(body[14..16]))
  {
    hide FromLittleEndian;
    if chunks != [] {
      var before, last := chunks[..|chunks| - 1], chunks[|chunks| - 1];
      TakeAllFindsLast(before);
      TakeAllSnoc(NOTHING, before, last);
      hide TakeAll;
      assert chunks == before + [last];
      assert forall c :: c in chunks <==> c in before || c == last;
      assert FMT[0] != DATA[0];
    }
  }

  lemma Pieces(a: seq<byte>, b: seq<byte>, c: seq<byte>, tail: seq<byte>)
    ensures var s := a + b + c + tail;
            && s[..|a|] == a
            && s[|a|..|a| + |b|] == b
            && s[|a| + |b|..|a| + |b| + |c|] == c
            && s[|a| + |b| + |c|..] == tail
  {
  }

  lemma SliceOfSlice(data: seq<byte>, offset: nat, i: nat, j: nat)
    requires i <= j && offset + j <= |data|
    ensures data[offset + i..offset + j] == data[offset..][i..j]
    ensures data[offset + i..] == data[offset..][i..]
  {
  }

  lemma Small32(n: nat)
    requires n < TWO_32
    ensures FromLittleEndian(LE32(n)) == n
  {
    Widths();
    LittleEndianInverse(n, 4);
  }

  lemma SuffixLayout(rest: seq<byte>, c: Chunk, tail: seq<byte>)
    requires WellFormed(c) && rest == ChunkBytes(c) + tail
    ensures 8 + |c.body| <= |rest|
    ensures rest[0..4] == c.id && FromLittleEndian(rest[4..8]) == |c.body|
    ensures rest[8..8 + |c.body|] == c.body && rest[8 + |c.body|..] == tail
  {
    Small32(|c.body|);
    hide LE32, FromLittleEndian;
    Pieces(c.id, LE32(|c.body|), c.body, tail);
  }

  lemma ChunkLayout(data: seq<byte>, offset: nat, c: Chunk, tail: seq<byte>)
    requires WellFormed(c) && offset <= |data| && data[offset..] == ChunkBytes(c) + tail
    ensures offset + 8 + |c.body| <= |data|
    ensures data[offset..offset + 4] == c.id
    ensures FromLittleEndian(data[offset + 4..offset + 8]) == |c.body|
    ensures data[offset + 8..offset + 8 + |c.body|] == c.body
    ensures data[offset + 8 + |c.body|..] == tail
  {
    hide FromLittleEndian, ChunkBytes;
    var n := |c.body|;
    SuffixLayout(data[offset..], c, tail);
    SliceOfSlice(data, offset, 0, 4);
    SliceOfSlice(data, offset, 4, 8);
    SliceOfSlice(data, offset, 8, 8 + n);
    SliceOfSlice(data, offset, 8 + n, 8 + n);
  }

  lemma ScanChunk(data: seq<byte>, offset: nat, f: Found, c: Chunk)
    requires offset + 8 + |c.body| <= |data|
    requires data[offset..offset + 4] == c.id
    requires FromLittleEndian(data[offset + 4..offset + 8]) == |c.body|
    requires data[offset + 8..offset + 8 + |c.body|] == c.body
    ensures ScanFrom(data, offset, f)
            == match TakeChunk(f, c.id, c.body)
               case Failure(e) => Failure(e)
               case Success(f') => ScanFrom(data, offset + 8 + |c.body| + |c.body| % 2, f')
  {
    hide TakeChunk, FromLittleEndian;
  }

  lemma NextChunk(data: seq<byte>, body: nat, chunks: seq<Chunk>, padLast: bool)
    requires chunks != [] && body <= |data|
    requires data[body..]
             == (if |chunks| == 1 && !padLast then [] else Padding(chunks[0])) + Serialise(chunks[1..], padLast)
    ensures var next := body + |chunks[0].body| % 2;
            if |chunks| == 1 then next + 8 > |data|
            else next <= |data| && data[next..] == Serialise(chunks[1..], padLast)
  {
    var pad := if |chunks| == 1 && !padLast then [] else Padding(chunks[0]);
    var tail := Serialise(chunks[1..], padLast);
    if |chunks| == 1 {
      assert tail == [];
    }
    hide Serialise;
    assert |data| - body == |pad| + |tail|;
    SliceOfSlice(data, body, |pad|, |pad|);
    assert (pad + tail)[|pad|..] == tail;
  }

  /** The first of the serialised chunks is taken, and the others follow at the next offset. */
  lemma ScanOne(data: seq<byte>, offset: nat, f: Found, chunks: seq<Chunk>, padLast: bool)
    requires chunks != [] && WellFormed(chunks[0])
    requires offset <= |data| && data[offset..] == Serialise(chunks, padLast)
    ensures var c := chunks[0];
            var next := offset + 8 + |c.body| + |c.body| % 2;
            && ScanFrom(data, offset, f)
               == (match TakeChunk(f, c.id, c.body)
                   case Failure(e) => Failure(e)
                   case Success(f') => ScanFrom(data, next, f'))
            && if |chunks| == 1 then next + 8 > |data|
               else next <= |data| && data[next..] == Serialise(chunks[1..], padLast)
  {
    hide ChunkBytes, TakeChunk, FromLittleEndian, ScanFrom, Padding;
    var c := chunks[0];
    var pad := if |chunks| == 1 && !padLast then [] else Padding(c);
    ChunkLayout(data, offset, c, pad + Serialise(chunks[1..], padLast));
    hide Serialise;
    ScanChunk(data, offset, f, c);
    NextChunk(data, offset + 8 + |c.body|, chunks, padLast);
  }

  lemma ScanEnd(data: seq<byte>, offset: nat, f: Found)
    requires offset + 8 > |data|
    ensures ScanFrom(data, offset, f) == Success(f)
  {
  }

  /** Scanning serialised chunks takes them one by one, in order. */
  lemma {:induction false} ScanSerialised(data: seq<byte>, offset: nat, f: Found, chunks: seq<Chunk>, padLast: bool)
    requires forall c :: c in chunks ==> WellFormed(c)
    requires offset <= |data| && data[offset..] == Serialise(chunks, padLast)
    ensures ScanFrom(data, offset, f) == TakeAll(f, chunks)
    decreases |chunks|
  {
    hide ScanFrom, TakeChunk;
    if chunks == [] {
      ScanEnd(data, offset, f);
    } else {
      hide Serialise;
      ScanOne(data, offset, f, chunks, padLast);
      var c := chunks[0];
      var next := offset + 8 + |c.body| + |c.body| % 2;
      match TakeChunk(f, c.id, c.body)
      case Failure(_) =>
      case Success(f') =>
        if |chunks| == 1 {
          ScanEnd(data, next, f');
        } else {
          ScanSerialised(data, next, f', chunks[1..], padLast);
        }
    }
  }

  /** On any serialised chunk list the decoder succeeds exactly when the list is playable, and then returns the last
      data chunk. */
  lemma DecodesChunkLists(chunks: seq<Chunk>, size: seq<byte>, padLast: bool, pcm: seq<byte>)
    requires |size| == 4
    requires forall c :: c in chunks ==> WellFormed(c)
    ensures DecodeWav(Riff(chunks, size, padLast)) == Success(pcm)
            <==> Playable(chunks) && Last(chunks, DATA) == Some(pcm)
  {
    var data := Riff(chunks, size, padLast);
    assert data[0..4] == RIFF && data[8..12] == WAVE && data[12..] == Serialise(chunks, padLast);
    ScanSerialised(data, 12, NOTHING, chunks, padLast);
    TakeAllFindsLast(chunks);
    if Playable(chunks) {
      PlayableIsLong(chunks, padLast);
    }
  }

  lemma {:induction false} LastIsThere(chunks: seq<Chunk>, id: seq<byte>)
    ensures Last(chunks, id).Some? ==>
              exists i :: 0 <= i < |chunks| && chunks[i].id == id && chunks[i].body == Last(chunks, id).value
  {
    if chunks != [] && chunks[|chunks| - 1].id != id {
      LastIsThere(chunks[..|chunks| - 1], id);
    }
  }

  lemma {:induction false} SerialisedLength(chunks: seq<Chunk>, padLast: bool, i: nat)
    requires i < |chunks| && forall c :: c in chunks ==> |c.id| == 4
    ensures |Serialise(chunks, padLast)| >= 8 * |chunks| + |chunks[i].body|
  {
    if i > 0 {
      SerialisedLength(chunks[1..], padLast, i - 1);
    } else if |chunks| > 1 {
      SerialisedLength(chunks[1..], padLast, 0);
    }
  }

  lemma PlayableIsLong(chunks: seq<Chunk>, padLast: bool)
    requires Playable(chunks) && forall c :: c in chunks ==> WellFormed(c)
    ensures |Serialise(chunks, padLast)| >= 32
  {
    LastIsThere(chunks, FMT);
    LastIsThere(chunks, DATA);
    var i :| 0 <= i < |chunks| && chunks[i].id == FMT && chunks[i].body == Last(chunks, FMT).value;
    var j :| 0 <= j < |chunks| && chunks[j].id == DATA && chunks[j].body == Last(chunks, DATA).value;
    assert FMT[0] != DATA[0];
    SerialisedLength(chunks, padLast, i);
  }

  // ---------- Round trip ----------

  lemma FmtFields(m: AudioMetadata)
    requires ValidMetadata(m)
    ensures GoodFmt(FmtBody(m)) && VoiceFmt(FmtBody(m))
  {
    hide FromLittleEndian;
    var body := FmtBody(m);
    Widths();
    LittleEndianInverse(1, 2);
    LittleEndianInverse(16, 2);
    LittleEndianInverse(16000, 4);
    assert body[..2] == LE16(1) && body[2..4] == LE16(1);
    assert body[4..8] == LE32(16000) && body[14..16] == LE16(16);
  }

  lemma {:induction false} ScannedDataIsShort(data: seq<byte>, offset: nat, f: Found)
    requires |f.pcm| < TWO_32
    ensures match ScanFrom(data, offset, f)
            case Failure(_) => true
            case Success(f') => |f'.pcm| < TWO_32
    decreases |data| + 8 - offset
  {
    if offset + 8 <= |data| {
      var size := FromLittleEndian(data[offset + 4..offset + 8]);
      Widths();
      FromLittleEndianBound(data[offset + 4..offset + 8]);
      if offset + 8 + size <= |data| {
        var taken := TakeChunk(f, data[offset..offset + 4], data[offset + 8..offset + 8 + size]);
        if taken.Success? {
          ScannedDataIsShort(data, offset + 8 + size + size % 2, taken.value);
        }
      }
    }
  }

  /** Decoding undoes encoding exactly for PCM shorter than 2^32 bytes, of even or odd length. */
  lemma WavRoundTrip(pcm: seq<byte>, m: AudioMetadata)
    requires ValidMetadata(m)
    ensures DecodeWav(EncodeWav(pcm, m)) == Success(pcm) <==> |pcm| < TWO_32
  {
    if |pcm| < TWO_32 {
      var chunks := [Chunk(FMT, FmtBody(m), 0), Chunk(DATA, pcm, 0)];
      var size := LE32(36 + |pcm|);
      FmtFields(m);
      assert FMT[0] != DATA[0];
      assert Last(chunks, DATA) == Some(pcm);
      assert chunks[..1] == [chunks[0]] && Last([chunks[0]], FMT) == Some(FmtBody(m));
      assert Last(chunks, FMT) == Some(FmtBody(m));
      DecodesChunkLists(chunks, size, false, pcm);
      AsChunks(pcm, m);
    } else {
      ScannedDataIsShort(EncodeWav(pcm, m), 12, NOTHING);
    }
  }

  /** The 44 bytes of header, field by field: chunk ids, sizes, PCM, channels, rates, block size and 16 bits. */
  lemma HeaderSpelled(pcm: seq<byte>, m: AudioMetadata)
    requires ValidMetadata(m) && |pcm| < TWO_32
    ensures EncodeWav(pcm, m)
            == [82, 73, 70, 70] + LE32(36 + |pcm|) + [87, 65, 86, 69]
               + [102, 109, 116, 32] + LE32(16)
               + LE16(1) + LE16(1) + LE32(16000) + LE32(32000) + LE16(2) + LE16(16)
               + [100, 97, 116, 97] + LE32(|pcm|) + pcm
  {
    hide LE16, LE32;
  }

  /** Integers are written least significant byte first. */
  lemma ShortSpelled(n: nat)
    requires n < TWO_16
    ensures LE16(n) == [n % 256, n / 256 % 256]
  {
    LastByte(n / 256);
    assert LE16(n) == LittleEndian(n, 2);
  }

  lemma WordSpelled(n: nat)
    requires n < TWO_32
    ensures LE32(n) == [n % 256, n / 256 % 256, n / 256 / 256 % 256, n / 256 / 256 / 256 % 256]
  {
    assert LE32(n) == LittleEndian(n, 4);
    var n1 := n / 256;
    var n2 := n1 / 256;
    var n3 := n2 / 256;
    LastByte(n3);
    assert LittleEndian(n2, 2) == [n2 % 256] + LittleEndian(n3, 1);
    assert LittleEndian(n1, 3) == [n1 % 256] + LittleEndian(n2, 2);
    assert LittleEndian(n, 4) == [n % 256] + LittleEndian(n1, 3);
  }

  lemma LastByte(n: nat)
    ensures LittleEndian(n, 1) == [n % 256]
  {
    assert LittleEndian(n / 256, 0) == [];
  }

  /** The shortest audio for which it fails. */
  lemma LongestIsLost(m: AudioMetadata)
    requires ValidMetadata(m)
    ensures DecodeWav(EncodeWav(Zeros(TWO_32), m)) != Success(Zeros(TWO_32))
  {
    WavRoundTrip(Zeros(TWO_32), m);
  }

  lemma Group(x: seq<byte>, a: seq<byte>, b: seq<byte>, c: seq<byte>)
    ensures x + a + b + c == x + (a + b + c)
  {
    Reassociate(x, a, b);
    Reassociate(x, a + b, c);
  }

  lemma AsChunks(pcm: seq<byte>, m: AudioMetadata)
    requires |pcm| < TWO_32
    ensures EncodeWav(pcm, m) == Riff([Chunk(FMT, FmtBody(m), 0), Chunk(DATA, pcm, 0)], LE32(36 + |pcm|), false)
  {
    var fmt, data := Chunk(FMT, FmtBody(m), 0), Chunk(DATA, pcm, 0);
    assert DataSize(pcm) == |pcm|;
    hide LE32, LE16, DataSize;
    assert [fmt, data][1..] == [data] && [data][1..] == [];
    var none: seq<byte> := [];
    assert none + none == none && ChunkBytes(data) + none == ChunkBytes(data);
    assert Serialise([data], false) == ChunkBytes(data) + (none + none);
    assert none + Serialise([data], false) == ChunkBytes(data);
    assert Serialise([fmt, data], false) == ChunkBytes(fmt) + (none + Serialise([data], false));
    FmtGrouped(RIFF + LE32(36 + |pcm|) + WAVE + FMT + LE32(16), m);
    var head := RIFF + LE32(36 + |pcm|) + WAVE;
    Group(head, FMT, LE32(16), FmtBody(m));
    Group(head + ChunkBytes(fmt), DATA, LE32(|pcm|), pcm);
    Reassociate(head, ChunkBytes(fmt), ChunkBytes(data));
  }

  lemma FmtGrouped(x: seq<byte>, m: AudioMetadata)
    ensures x + LE16(1) + LE16(m.channels) + LE32(m.sampleRate) + LE32(m.sampleRate * m.channels * 2)
            + LE16(m.channels * 2) + LE16(16)
            == x + FmtBody(m)
  {
    hide LE32, LE16;
    var a, b, c, d, e, f := LE16(1), LE16(m.channels), LE32(m.sampleRate), LE32(m.sampleRate * m.channels * 2),
                            LE16(m.channels * 2), LE16(16);
    Group(x, a, b, c);
    Group(x, a + b + c, d, e);
    Reassociate(x, a + b + c + d + e, f);
  }
}
