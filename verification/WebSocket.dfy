/** WebSocket framing (RFC 6455 sections 5.2 and 5.3): two writers and two readers. */
module WebSocket {
  import opened Wrappers
  import opened Bytes
  import opened Streams

  const OP_TEXT: byte := 1
  const OP_CLOSE: byte := 8
  const MAX_PAYLOAD: nat := 65535
  const MAX_READ: nat := 0x10_0000

  datatype ReadError = ErrShort | ErrClosed | ErrTooLarge | ErrUnsupported

  datatype Frame = Frame(opcode: byte, payload: seq<byte>)

  function Pow2(n: nat): nat {
    if n == 0 then 1 else 2 * Pow2(n - 1)
  }

  /** Exclusive or of the low `bits` bits. */
  function XorBits(a: nat, b: nat, bits: nat): (r: nat)
    ensures r < Pow2(bits)
  {
    if bits == 0 then 0 else (a + b) % 2 + 2 * XorBits(a / 2, b / 2, bits - 1)
  }

  lemma {:induction false} XorBitsTwice(a: nat, b: nat, bits: nat)
    requires a < Pow2(bits)
    ensures XorBits(XorBits(a, b, bits), b, bits) == a
  {
    if bits > 0 {
      var bit, high := (a + b) % 2, XorBits(a / 2, b / 2, bits - 1);
      XorBitsTwice(a / 2, b / 2, bits - 1);
      HalfAndBit(bit, high);
      SameParity(a, b, high);
      assert XorBits(a, b, bits) == bit + 2 * high;
      hide XorBits, Pow2;
      UnfoldXor(bit + 2 * high, b, bits);
    }
  }

  function Bit(n: nat, k: nat): nat {
    if k == 0 then n % 2 else Bit(n / 2, k - 1)
  }

  /** Each bit of the result is set exactly when it is set in one of the operands and not in the other. */
  lemma {:induction false} XorIsBitwise(a: nat, b: nat, bits: nat, k: nat)
    requires k < bits
    ensures Bit(XorBits(a, b, bits), k) == if Bit(a, k) == Bit(b, k) then 0 else 1
    decreases bits
  {
    hide XorBits, Bit;
    var bit, high := (a + b) % 2, XorBits(a / 2, b / 2, bits - 1);
    UnfoldXor(a, b, bits);
    UnfoldBit(bit + 2 * high, k);
    UnfoldBit(a, k);
    UnfoldBit(b, k);
    if k > 0 {
      HalfAndBit(bit, high);
      XorIsBitwise(a / 2, b / 2, bits - 1, k - 1);
    } else {
      ParityOfSum(a, b, high);
    }
  }

  lemma UnfoldBit(n: nat, k: nat)
    ensures Bit(n, k) == if k == 0 then n % 2 else Bit(n / 2, k - 1)
  {
  }

  lemma ParityOfSum(a: nat, b: nat, high: nat)
    ensures ((a + b) % 2 + 2 * high) % 2 == if a % 2 == b % 2 then 0 else 1
  {
  }

  lemma UnfoldXor(a: nat, b: nat, bits: nat)
    requires bits > 0
    ensures XorBits(a, b, bits) == (a + b) % 2 + 2 * XorBits(a / 2, b / 2, bits - 1)
  {
  }

  lemma HalfAndBit(bit: nat, high: nat)
    requires bit < 2
    ensures (bit + 2 * high) / 2 == high
  {
  }

  lemma SameParity(a: nat, b: nat, high: nat)
    ensures ((a + b) % 2 + 2 * high + b) % 2 == a % 2
  {
  }

  lemma ByteBits()
    ensures Pow2(8) == 256
  {
    assert Pow2(8) == 2 * Pow2(7) && Pow2(7) == 2 * Pow2(6) && Pow2(6) == 2 * Pow2(5);
  }

  function Xor(a: byte, b: byte): byte {
    ByteBits();
    XorBits(a, b, 8)
  }

  lemma XorTwice(a: byte, b: byte)
    ensures Xor(Xor(a, b), b) == a
  {
    ByteBits();
    XorBitsTwice(a, b, 8);
  }

  /** Each byte combined with the mask byte at its position modulo four. */
  function Mask(payload: seq<byte>, key: seq<byte>): (r: seq<byte>)
    requires |key| == 4
    ensures |r| == |payload|
  {
    seq(|payload|, i requires 0 <= i < |payload| => Xor(payload[i], key[i % 4]))
  }

  /** Masking with the same key undoes itself. */
  lemma MaskTwice(payload: seq<byte>, key: seq<byte>)
    requires |key| == 4
    ensures Mask(Mask(payload, key), key) == payload
  {
    forall i | 0 <= i < |payload|
      ensures Mask(Mask(payload, key), key)[i] == payload[i]
    {
      XorTwice(payload[i], key[i % 4]);
    }
  }

  method MaskInPlace(buffer: array<byte>, key: seq<byte>)
    requires |key| == 4
    modifies buffer
    ensures buffer[..] == Mask(old(buffer[..]), key)
    ensures forall i :: 0 <= i < buffer.Length ==> buffer[i] == Xor(old(buffer[i]), key[i % 4])
  {
    for index := 0 to buffer.Length
      invariant buffer[..index] == Mask(old(buffer[..]), key)[..index]
      invariant buffer[index..] == old(buffer[index..])
    {
      buffer[index] := Xor(buffer[index], key[index % 4]);
    }
    assert buffer[..] == buffer[..buffer.Length];
  }

  // Setting the top bit of a byte.
  function WithTopBit(b: byte): byte {
    if b < 128 then b + 128 else b
  }

  // ---------- Writing ----------

  function Header(opcode: byte, length: nat, masked: bool): seq<byte>
    requires length <= MAX_PAYLOAD
  {
    var bit: byte := if masked then 128 else 0;
    if length < 126 then [WithTopBit(opcode), bit + length]
    else [WithTopBit(opcode), bit + 126, length / 256, length % 256]
  }

  function FrameBytes(f: Frame, key: Option<seq<byte>>): seq<byte>
    requires |f.payload| <= MAX_PAYLOAD
    requires key.Some? ==> |key.value| == 4
  {
    match key
    case None => Header(f.opcode, |f.payload|, false) + f.payload
    case Some(k) => Header(f.opcode, |f.payload|, true) + k + Mask(f.payload, k)
  }

  datatype WriteError = ErrPayload | ErrRandom | ErrConnection

  /** Writing one frame: what has been sent, the room left on the connection, and the error.  Nothing is sent of a frame
      that is too large or lacks its mask; of any other, as much as the connection takes. */
  function WriteStep(sent: seq<byte>, room: nat, f: Frame, masks: bool, random: Option<seq<byte>>)
    : (seq<byte>, nat, Option<WriteError>)
    requires random.Some? ==> |random.value| == 4
  {
    if |f.payload| > MAX_PAYLOAD then (sent, room, Some(ErrPayload))
    else if masks && random.None? then (sent, room, Some(ErrRandom))
    else
      var (sent', room', ok) := Put(sent, room, FrameBytes(f, if masks then random else None));
      (sent', room', if ok then None else Some(ErrConnection))
  }

  /** The ASR client's writer; `random` is the mask it draws on a connection that masks, `None` when the source of
      randomness fails. */
  method WriteFrame(opcode: byte, payload: seq<byte>, masks: bool, random: Option<seq<byte>>, conn: Writer)
    returns (error: Option<WriteError>)
    requires random.Some? ==> |random.value| == 4
    modifies conn
    ensures (conn.sent, conn.room, error)
            == WriteStep(old(conn.sent), old(conn.room), Frame(opcode, payload), masks, random)
  {
    if |payload| > MAX_PAYLOAD {
      return Some(ErrPayload);
    }
    var header := [WithTopBit(opcode)];
    var length := |payload|;
    var maskBit := 0;
    if masks {
      maskBit := 128;
    }
    if length < 126 {
      header := header + [maskBit + length];
    } else {
      header := header + [maskBit + 126, length / 256, length % 256];
    }
    assert header == Header(opcode, length, masks);
    var framePayload := new byte[|payload|](i requires 0 <= i < |payload| => payload[i]);
    assert framePayload[..] == payload;
    if masks {
      if random.None? {
        return Some(ErrRandom);
      }
      header := header + random.value;
      MaskInPlace(framePayload, random.value);
    }
    PutTwice(conn.sent, conn.room, header, framePayload[..]);
    var ok := conn.Write(header);
    if !ok {
      return Some(ErrConnection);
    }
    ok := conn.Write(framePayload[..]);
    error := if ok then None else Some(ErrConnection);
  }

  /** The Mac's text responses. */
  method WriteIOSWebSocketText(payload: seq<byte>, conn: Writer) returns (error: Option<WriteError>)
    modifies conn
    ensures (conn.sent, conn.room, error)
            == WriteStep(old(conn.sent), old(conn.room), Frame(OP_TEXT, payload), false, None)
  {
    var frame := [0x81];
    if |payload| < 126 {
      frame := frame + [|payload|];
    } else if |payload| <= 65535 {
      frame := frame + [126, |payload| / 256, |payload| % 256];
    } else {
      return Some(ErrPayload);
    }
    assert frame == Header(OP_TEXT, |payload|, false);
    frame := frame + payload;
    var ok := conn.Write(frame);
    error := if ok then None else Some(ErrConnection);
  }

  // ---------- Reading ----------

  /** The ASR client's reader: what is left, and the frame or the error. */
  function ReadASR(data: seq<byte>): (seq<byte>, Result<Frame, ReadError>) {
    if |data| < 2 then ([], Failure(ErrShort))
    else
      var opcode, second := data[0] % 16, data[1];
      var rest := data[2..];
      if opcode == OP_CLOSE then (rest, Failure(ErrClosed))
      else if second % 128 == 127 then (rest, Failure(ErrUnsupported))
      else if second % 128 == 126 then
        var (rest, extended) := Take(rest, 2);
        if extended.None? then (rest, Failure(ErrShort))
        else ReadPayload(rest, opcode, FromBigEndian(extended.value), second >= 128)
      else ReadPayload(rest, opcode, second % 128, second >= 128)
  }

  /** The Mac's reader. */
  function ReadIOS(data: seq<byte>): (seq<byte>, Result<Frame, ReadError>) {
    if |data| < 2 then ([], Failure(ErrShort))
    else
      var opcode, second := data[0] % 16, data[1];
      var rest := data[2..];
      if second % 128 >= 126 then
        var (rest, extended) := Take(rest, if second % 128 == 126 then 2 else 8);
        if extended.None? then (rest, Failure(ErrShort))
        else if FromBigEndian(extended.value) > MAX_READ then (rest, Failure(ErrTooLarge))
        else ReadPayload(rest, opcode, FromBigEndian(extended.value), second >= 128)
      else ReadPayload(rest, opcode, second % 128, second >= 128)
  }

  function ReadPayload(data: seq<byte>, opcode: byte, length: nat, masked: bool)
    : (seq<byte>, Result<Frame, ReadError>)
  {
    if masked then
      var (rest, key) := Take(data, 4);
      if key.None? then (rest, Failure(ErrShort))
      else
        var (rest, payload) := Take(rest, length);
        if payload.None? then (rest, Failure(ErrShort))
        else (rest, Success(Frame(opcode, Mask(payload.value, key.value))))
    else
      var (rest, payload) := Take(data, length);
      if payload.None? then (rest, Failure(ErrShort)) else (rest, Success(Frame(opcode, payload.value)))
  }

  method ReadMaskedPayload(reader: Reader, opcode: byte, length: nat, masked: bool)
    returns (r: Result<Frame, ReadError>)
    modifies reader
    ensures (reader.data, r) == ReadPayload(old(reader.data), opcode, length, masked)
  {
    var key: seq<byte> := [0, 0, 0, 0];
    if masked {
      var read := reader.ReadFull(4);
      if read.None? {
        return Failure(ErrShort);
      }
      key := read.value;
    }
    var bytes := reader.ReadFull(length);
    if bytes.None? {
      return Failure(ErrShort);
    }
    var payload := new byte[length](i requires 0 <= i < length => bytes.value[i]);
    assert payload[..] == bytes.value;
    if masked {
      MaskInPlace(payload, key);
    }
    r := Success(Frame(opcode, payload[..]));
  }

  method ReadFrameWithOpcode(reader: Reader) returns (r: Result<Frame, ReadError>)
    modifies reader
    ensures (reader.data, r) == ReadASR(old(reader.data))
  {
    var first := reader.ReadFull(1);
    if first.None? {
      return Failure(ErrShort);
    }
    var second := reader.ReadFull(1);
    if second.None? {
      return Failure(ErrShort);
    }
    assert old(reader.data)[1..][1..] == old(reader.data)[2..];
    var opcode := first.value[0] % 16;
    if opcode == OP_CLOSE {
      return Failure(ErrClosed);
    }
    var masked := second.value[0] >= 128;
    var length: nat := second.value[0] % 128;
    if length == 126 {
      var extended := reader.ReadFull(2);
      if extended.None? {
        return Failure(ErrShort);
      }
      length := FromBigEndian(extended.value);
    } else if length == 127 {
      return Failure(ErrUnsupported);
    }
    r := ReadMaskedPayload(reader, opcode, length, masked);
  }

  /** The ASR client's message reader takes text frames only. */
  method ReadTextFrame(reader: Reader) returns (r: Result<seq<byte>, ReadError>)
    modifies reader
    ensures reader.data == ReadASR(old(reader.data)).0
    ensures r == match ReadASR(old(reader.data)).1
                 case Failure(e) => Failure(e)
                 case Success(f) => if f.opcode == OP_TEXT then Success(f.payload) else Failure(ErrUnsupported)
  {
    var frame := ReadFrameWithOpcode(reader);
    match frame {
      case Failure(e) => r := Failure(e);
      case Success(f) =>
        if f.opcode != OP_TEXT {
          return Failure(ErrUnsupported);
        }
        r := Success(f.payload);
    }
  }

  method ReadIOSWebSocketFrame(reader: Reader) returns (r: Result<Frame, ReadError>)
    modifies reader
    ensures (reader.data, r) == ReadIOS(old(reader.data))
  {
    var header := reader.ReadFull(2);
    if header.None? {
      return Failure(ErrShort);
    }
    var opcode := header.value[0] % 16;
    var masked := header.value[1] >= 128;
    var length: nat := header.value[1] % 128;
    if length == 126 {
      var extended := reader.ReadFull(2);
      if extended.None? {
        return Failure(ErrShort);
      }
      length := FromBigEndian(extended.value);
    } else if length == 127 {
      var extended := reader.ReadFull(8);
      if extended.None? {
        return Failure(ErrShort);
      }
      length := FromBigEndian(extended.value);
    }
    if length > MAX_READ {
      return Failure(ErrTooLarge);
    }
    r := ReadMaskedPayload(reader, opcode, length, masked);
  }

  // ---------- Round trips ----------

  /** A frame as it is put on the wire. */
  datatype Outgoing = Outgoing(frame: Frame, key: Option<seq<byte>>)

  predicate Writable(o: Outgoing) {
    o.frame.opcode < 16 && |o.frame.payload| <= MAX_PAYLOAD && (o.key.Some? ==> |o.key.value| == 4)
  }

  datatype Side = ASR | IOS

  /** A frame the reader of one side does not take for the end of the connection. */
  predicate Readable(o: Outgoing, side: Side) {
    Writable(o) && (side.ASR? ==> o.frame.opcode != OP_CLOSE)
  }

  function Read(side: Side, data: seq<byte>): (seq<byte>, Result<Frame, ReadError>) {
    if side.ASR? then ReadASR(data) else ReadIOS(data)
  }

  predicate AllWritable(frames: seq<Outgoing>) {
    forall o :: o in frames ==> Writable(o)
  }

  function Wire(frames: seq<Outgoing>): seq<byte>
    requires AllWritable(frames)
  {
    if frames == [] then []
    else
      assert Writable(frames[0]);
      FrameBytes(frames[0].frame, frames[0].key) + Wire(frames[1..])
  }

  /** Reads up to `count` frames, stopping at the first error. */
  function ReadMany(side: Side, data: seq<byte>, count: nat): (seq<byte>, seq<Frame>)
    decreases count
  {
    if count == 0 then (data, [])
    else
      var (rest, frame) := Read(side, data);
      if frame.Failure? then (rest, [])
      else
        var (end, frames) := ReadMany(side, rest, count - 1);
        (end, [frame.value] + frames)
  }

  // The key and masked payload of a frame, without its header.
  function Body(payload: seq<byte>, key: Option<seq<byte>>): seq<byte>
    requires key.Some? ==> |key.value| == 4
  {
    match key
    case None => payload
    case Some(k) => k + Mask(payload, k)
  }

  lemma PayloadRoundTrip(opcode: byte, payload: seq<byte>, key: Option<seq<byte>>, tail: seq<byte>)
    requires key.Some? ==> |key.value| == 4
    ensures ReadPayload(Body(payload, key) + tail, opcode, |payload|, key.Some?)
            == (tail, Success(Frame(opcode, payload)))
  {
    var data := Body(payload, key) + tail;
    match key
    case None =>
      assert data[..|payload|] == payload && data[|payload|..] == tail;
    case Some(k) =>
      assert data[..4] == k;
      assert data[4..][..|payload|] == Mask(payload, k) && data[4..][|payload|..] == tail;
      MaskTwice(payload, k);
  }

  lemma LengthRoundTrip(n: nat)
    requires n <= MAX_PAYLOAD
    ensures FromBigEndian([n / 256, n % 256]) == n
  {
    var s: seq<byte> := [n / 256, n % 256];
    assert s[..1] == [n / 256] && s[..1][..0] == [];
    assert FromBigEndian(s[..1][..0]) == 0;
    assert FromBigEndian(s[..1]) == n / 256;
  }

  // The header of a frame with a payload of `n` bytes, and what follows it.
  predicate LaidOut(data: seq<byte>, opcode: byte, n: nat, masked: bool, body: seq<byte>) {
    && opcode < 16 && n <= MAX_PAYLOAD
    && |data| >= 2 && data[0] == opcode + 128
    && var bit := if masked then 128 else 0;
       if n < 126 then data[1] == bit + n && data[2..] == body
       else
         && data[1] == bit + 126 && |data| >= 4
         && data[2..][..2] == [n / 256, n % 256] && data[2..][2..] == body
  }

  lemma FrameLayout(o: Outgoing, tail: seq<byte>)
    requires Writable(o)
    ensures LaidOut(FrameBytes(o.frame, o.key) + tail, o.frame.opcode, |o.frame.payload|, o.key.Some?,
                    Body(o.frame.payload, o.key) + tail)
  {
    var n := |o.frame.payload|;
    var header := Header(o.frame.opcode, n, o.key.Some?);
    var body := Body(o.frame.payload, o.key);
    hide Mask;
    assert FrameBytes(o.frame, o.key) == header + body;
    var data := header + body + tail;
    Reassociate(header, body, tail);
    assert data[|header|..] == body + tail;
    if n >= 126 {
      assert data[2..][..2] == header[2..];
      assert data[2..][2..] == data[4..];
    }
  }

  lemma FrameRoundTrip(side: Side, o: Outgoing, tail: seq<byte>)
    requires Readable(o, side)
    ensures Read(side, FrameBytes(o.frame, o.key) + tail) == (tail, Success(o.frame))
  {
    FrameLayout(o, tail);
    PayloadRoundTrip(o.frame.opcode, o.frame.payload, o.key, tail);
    var data, body := FrameBytes(o.frame, o.key) + tail, Body(o.frame.payload, o.key) + tail;
    hide FrameBytes, Body, ReadPayload, ReadASR, ReadIOS, LaidOut;
    if side.ASR? {
      HeaderReadByASR(data, o.frame.opcode, |o.frame.payload|, o.key.Some?, body);
    } else {
      HeaderReadByIOS(data, o.frame.opcode, |o.frame.payload|, o.key.Some?, body);
    }
  }

  lemma HeaderReadByASR(data: seq<byte>, opcode: byte, n: nat, masked: bool, body: seq<byte>)
    requires LaidOut(data, opcode, n, masked, body) && opcode != OP_CLOSE
    ensures ReadASR(data) == ReadPayload(body, opcode, n, masked)
  {
    LengthRoundTrip(n);
    hide ReadPayload, FromBigEndian;
  }

  lemma HeaderReadByIOS(data: seq<byte>, opcode: byte, n: nat, masked: bool, body: seq<byte>)
    requires LaidOut(data, opcode, n, masked, body)
    ensures ReadIOS(data) == ReadPayload(body, opcode, n, masked)
  {
    LengthRoundTrip(n);
    hide ReadPayload, FromBigEndian;
  }

  function FramesOf(frames: seq<Outgoing>): (r: seq<Frame>)
    ensures |r| == |frames|
  {
    if frames == [] then [] else [frames[0].frame] + FramesOf(frames[1..])
  }

  predicate AllReadable(frames: seq<Outgoing>, side: Side)
    ensures AllReadable(frames, side) ==> AllWritable(frames)
  {
    forall o :: o in frames ==> Readable(o, side)
  }

  /** Any list of frames, masked or not, written back to back is read back in order by either reader, and exactly
      what followed them is left. */
  lemma {:induction false} StreamRoundTrip(side: Side, frames: seq<Outgoing>, tail: seq<byte>)
    requires AllReadable(frames, side)
    ensures ReadMany(side, Wire(frames) + tail, |frames|) == (tail, FramesOf(frames))
    decreases |frames|
  {
    if frames == [] {
      assert Wire(frames) + tail == tail;
    } else {
      assert Readable(frames[0], side) && AllReadable(frames[1..], side);
      var first := FrameBytes(frames[0].frame, frames[0].key);
      Reassociate(first, Wire(frames[1..]), tail);
      FrameRoundTrip(side, frames[0], Wire(frames[1..]) + tail);
      StreamRoundTrip(side, frames[1..], tail);
      hide FrameBytes, Read, Readable;
    }
  }

  /** The ASR reader ends the stream at a close frame, and the Mac's reader delivers it. */
  lemma CloseFrames(o: Outgoing, tail: seq<byte>)
    requires Writable(o) && o.frame.opcode == OP_CLOSE
    ensures ReadASR(FrameBytes(o.frame, o.key) + tail).1 == Failure(ErrClosed)
    ensures ReadIOS(FrameBytes(o.frame, o.key) + tail) == (tail, Success(o.frame))
  {
    FrameLayout(o, tail);
    FrameRoundTrip(IOS, o, tail);
    hide FrameBytes, Body;
  }

  /** A frame cut short anywhere is never taken for a frame. */
  lemma CutFramesAreRejected(side: Side, o: Outgoing, cut: nat)
    requires Readable(o, side) && cut < |FrameBytes(o.frame, o.key)|
    ensures Read(side, FrameBytes(o.frame, o.key)[..cut]).1 == Failure(ErrShort)
  {
    var bytes := FrameBytes(o.frame, o.key);
    var short, missing := bytes[..cut], bytes[cut..];
    assert bytes + [] == bytes && short + missing == bytes;
    FrameRoundTrip(side, o, []);
    hide FrameBytes;
    ReadExtends(side, short, missing);
    ErrorsAreFinal(side, short, missing);
  }

  /** Every error but that of a frame cut short stays when more arrives. */
  lemma ErrorsAreFinal(side: Side, data: seq<byte>, more: seq<byte>)
    ensures match Read(side, data).1
            case Failure(e) => e == ErrShort || Read(side, data + more).1 == Failure(e)
            case Success(_) => true
  {
    hide ReadPayload, FromBigEndian;
    if |data| >= 2 {
      assert (data + more)[2..] == data[2..] + more;
      forall n: nat | n <= |data| - 2
        ensures (data + more)[2..][..n] == data[2..][..n]
      {
      }
      PayloadErrors();
    }
  }

  lemma PayloadErrors()
    ensures forall data, opcode, length, masked ::
              ReadPayload(data, opcode, length, masked).1.Failure? ==>
                ReadPayload(data, opcode, length, masked).1 == Failure(ErrShort)
  {
    hide Mask;
  }

  /** On a new connection, the reader gets the frame exactly when the writer reports no error. */
  lemma ReadIffWritten(side: Side, f: Frame, masks: bool, random: Option<seq<byte>>, room: nat)
    requires random.Some? ==> |random.value| == 4
    requires Readable(Outgoing(f, if masks then random else None), side)
    ensures var (sent, _, error) := WriteStep([], room, f, masks, random);
            && (error.None? ==> Read(side, sent) == ([], Success(f)))
            && (error.Some? ==> Read(side, sent).1.Failure?)
  {
    var o := Outgoing(f, if masks then random else None);
    var bytes := FrameBytes(o.frame, o.key);
    var (sent, _, error) := WriteStep([], room, f, masks, random);
    hide FrameBytes, ReadASR, ReadIOS;
    if error.None? {
      FrameRoundTrip(side, o, []);
      assert sent == bytes && bytes + [] == bytes;
    } else if |bytes| > room {
      assert error == Some(ErrConnection) ==> sent == bytes[..room];
      CutFramesAreRejected(side, o, room);
      CutFramesAreRejected(side, o, 0);
    } else {
      CutFramesAreRejected(side, o, 0);
    }
  }

  /** What is read from a stream does not change when more arrives. */
  lemma ReadExtends(side: Side, data: seq<byte>, more: seq<byte>)
    ensures match Read(side, data)
            case (rest, Success(f)) => Read(side, data + more) == (rest + more, Success(f))
            case (_, Failure(_)) => true
  {
    if |data| >= 2 {
      var all := data + more;
      assert all[2..] == data[2..] + more && all[0] == data[0] && all[1] == data[1];
      var opcode, second := data[0] % 16, data[1];
      var k := if second % 128 == 126 then 2 else if second % 128 == 127 then 8 else 0;
      if k <= |data| - 2 {
        assert all[2..][..k] == data[2..][..k] && all[2..][k..] == data[2..][k..] + more;
        PayloadExtends(data[2..][k..], more, opcode, FromBigEndian(data[2..][..k]), second >= 128);
        PayloadExtends(data[2..], more, opcode, second % 128, second >= 128);
      }
      hide ReadPayload, FromBigEndian;
    }
  }

  lemma PayloadExtends(data: seq<byte>, more: seq<byte>, opcode: byte, length: nat, masked: bool)
    ensures match ReadPayload(data, opcode, length, masked)
            case (rest, Success(f)) => ReadPayload(data + more, opcode, length, masked) == (rest + more, Success(f))
            case (_, Failure(_)) => true
  {
    var all := data + more;
    var start := if masked then 4 else 0;
    if start + length <= |data| {
      assert all[..start] == data[..start] && all[start..] == data[start..] + more;
      assert all[start..][..length] == data[start..][..length];
      assert all[start..][length..] == data[start..][length..] + more;
      assert data[0..] == data && all[0..] == all;
    }
  }

  // ---------- The bytes of a frame, spelled out ----------

  /** RFC 6455 section 5.2: the final fragment with its opcode, the mask bit with the length or 126 and the length in
      two bytes, the key, and the payload, masked byte by byte with the key in turn. */
  lemma FrameSpelled(o: Outgoing)
    requires Writable(o)
    ensures var n := |o.frame.payload|;
            var bit := if o.key.Some? then 128 else 0;
            var head := [128 + o.frame.opcode] + if n < 126 then [bit + n] else [bit + 126, n / 256, n % 256];
            match o.key
            case None => FrameBytes(o.frame, o.key) == head + o.frame.payload
            case Some(k) =>
              FrameBytes(o.frame, o.key)
              == head + k + seq(n, i requires 0 <= i < n => Xor(o.frame.payload[i], k[i % 4]))
  {
  }

  /** The reserved bits and the final bit are not looked at. */
  lemma TopBitsAreIgnored(side: Side, a: byte, b: byte, rest: seq<byte>)
    requires a % 16 == b % 16
    ensures Read(side, [a] + rest) == Read(side, [b] + rest)
  {
    if rest != [] {
      assert ([a] + rest)[2..] == ([b] + rest)[2..] && ([a] + rest)[1] == ([b] + rest)[1];
    }
    hide ReadPayload, FromBigEndian;
  }

  /** A frame that gives its length in eight bytes. */
  function LongFrame(o: Outgoing): seq<byte>
    requires o.frame.opcode < 16 && |o.frame.payload| < TWO_64 && (o.key.Some? ==> |o.key.value| == 4)
  {
    [128 + o.frame.opcode, (if o.key.Some? then 128 else 0) + 127]
    + (BigEndian(|o.frame.payload|, 8) + Body(o.frame.payload, o.key))
  }

  lemma LongHeader(data: seq<byte>, opcode: byte, n: nat, masked: bool, body: seq<byte>)
    requires opcode < 16 && |data| >= 10 && data[0] == 128 + opcode && data[1] == (if masked then 128 else 0) + 127
    requires FromBigEndian(data[2..][..8]) == n && data[2..][8..] == body
    ensures ReadIOS(data)
            == if n > 1_048_576 then (body, Failure(ErrTooLarge)) else ReadPayload(body, opcode, n, masked)
    ensures opcode != OP_CLOSE ==> ReadASR(data).1 == Failure(ErrUnsupported)
  {
    hide ReadPayload, FromBigEndian;
  }

  /** The ASR reader does not take such frames; the service's takes them up to a megabyte. */
  lemma LongFrames(o: Outgoing, tail: seq<byte>)
    requires o.frame.opcode < 16 && |o.frame.payload| < TWO_64 && (o.key.Some? ==> |o.key.value| == 4)
    ensures o.frame.opcode != OP_CLOSE ==> ReadASR(LongFrame(o) + tail).1 == Failure(ErrUnsupported)
    ensures if |o.frame.payload| <= 1_048_576 then ReadIOS(LongFrame(o) + tail) == (tail, Success(o.frame))
            else ReadIOS(LongFrame(o) + tail).1 == Failure(ErrTooLarge)
  {
    var n := |o.frame.payload|;
    Widths();
    BigEndianInverse(n, 8);
    PayloadRoundTrip(o.frame.opcode, o.frame.payload, o.key, tail);
    var head := [128 + o.frame.opcode, (if o.key.Some? then 128 else 0) + 127];
    var size, body := BigEndian(n, 8), Body(o.frame.payload, o.key);
    hide Body, ReadPayload, BigEndian, FromBigEndian, Pow256, ReadIOS, ReadASR;
    Regroup(head, size, body, tail);
    assert LongFrame(o) + tail == head + (size + (body + tail));
    LongHeader(head + (size + (body + tail)), o.frame.opcode, n, o.key.Some?, body + tail);
  }

  lemma Regroup(head: seq<byte>, size: seq<byte>, body: seq<byte>, tail: seq<byte>)
    requires |head| == 2 && |size| == 8
    ensures head + (size + body) + tail == head + (size + (body + tail))
    ensures (head + (size + (body + tail)))[2..][..8] == size
    ensures (head + (size + (body + tail)))[2..][8..] == body + tail
  {
    Reassociate(size, body, tail);
    Reassociate(head, size + body, tail);
    assert (head + (size + (body + tail)))[2..] == size + (body + tail);
  }
}
