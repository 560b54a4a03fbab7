/** The byte-level encoders the cryptography signs and seals over. */
module Encoding {
  import opened Wrappers
  import opened Bytes
  import opened Symbolic

  datatype Transcript = Transcript(
    version: Octets,
    flow: Octets,
    pairingID: Octets,
    clientDeviceID: Octets,
    clientDeviceName: Octets,
    serverDeviceID: Octets,
    serverDeviceName: Octets,
    clientEphemeralPublicKey: Octets,
    serverEphemeralPublicKey: Octets,
    clientIdentityPublicKey: Octets,
    serverIdentityPublicKey: Octets)

  /** The header fields of a sealed message that its associated data covers. */
  datatype Header = Header(version: byte, sequence: uint64, sessionID: Octets, kind: Octets)

  // A 32-bit length, truncated as the conversion to uint32 truncates it, then the value.
  function Field(value: Octets): (r: Octets)
    ensures |r| == 4 + |value|
  {
    Lits(BigEndian(|value| % TWO_32, 4)) + value
  }

  function Fields(values: seq<Octets>): Octets {
    if values == [] then [] else Field(values[0]) + Fields(values[1..])
  }

  function TranscriptFields(t: Transcript): seq<Octets> {
    [t.version, t.flow, t.pairingID, t.clientDeviceID, t.clientDeviceName, t.serverDeviceID, t.serverDeviceName,
     t.clientEphemeralPublicKey, t.serverEphemeralPublicKey, t.clientIdentityPublicKey, t.serverIdentityPublicKey]
  }

  function TranscriptOctets(t: Transcript): Octets {
    Fields(TranscriptFields(t))
  }

  function HeaderOctets(h: Header): Octets {
    [Lit(h.version)] + Lits(BigEndian(h.sequence, 8)) + Field(h.sessionID) + Field(h.kind)
  }

  // ---------- The encoders, as they append to a buffer ----------

  class Buffer {
    var contents: Octets

    constructor ()
      ensures contents == []
    {
      contents := [];
    }

    method Write(value: Octets)
      modifies this
      ensures contents == old(contents) + value
    {
      contents := contents + value;
    }

    method WriteBytes(value: Octets)
      modifies this
      ensures contents == old(contents) + Field(value)
    {
      Write(Lits(BigEndian(|value| % TWO_32, 4)));
      Write(value);
    }
  }

  // The byte of `n` with this weight, as division and remainder give it.
  function ByteOf(n: nat, weight: nat): Octet
    requires weight > 0
  {
    Lit(n / weight % 256)
  }

  /** A field is four length bytes, the most significant first, of the length modulo 2^32, and the value. */
  lemma FieldSpelled(value: Octets)
    ensures var n := |value| % 0x1_0000_0000;
            Field(value)
            == [ByteOf(n, 0x100_0000), ByteOf(n, 0x1_0000), ByteOf(n, 0x100), ByteOf(n, 1)] + value
  {
    FourBytes(|value| % 0x1_0000_0000);
  }

  lemma FourBytes(n: nat)
    requires n < 0x1_0000_0000
    ensures Lits(BigEndian(n, 4)) == [ByteOf(n, 0x100_0000), ByteOf(n, 0x1_0000), ByteOf(n, 0x100), ByteOf(n, 1)]
  {
    assert n / 256 / 256 == n / 0x1_0000 && n / 256 / 256 / 256 == n / 0x100_0000;
    assert BigEndian(n / 256 / 256 / 256 / 256, 0) == [];
    assert BigEndian(n / 256 / 256 / 256, 1) == [n / 256 / 256 / 256 % 256];
    assert BigEndian(n / 256 / 256, 2) == [n / 256 / 256 / 256 % 256, n / 256 / 256 % 256];
    assert BigEndian(n / 256, 3) == [n / 256 / 256 / 256 % 256, n / 256 / 256 % 256, n / 256 % 256];
    assert BigEndian(n, 4) == [n / 256 / 256 / 256 % 256, n / 256 / 256 % 256, n / 256 % 256, n % 256];
  }

  lemma {:induction false} FieldsAppend(a: seq<Octets>, b: seq<Octets>)
    ensures Fields(a + b) == Fields(a) + Fields(b)
  {
    if a == [] {
      assert a + b == b;
    } else {
      hide Field;
      FieldsAppend(a[1..], b);
      assert (a + b)[0] == a[0] && (a + b)[1..] == a[1..] + b;
      Reassociate(Field(a[0]), Fields(a[1..]), Fields(b));
    }
  }

  lemma FieldsSnoc(a: seq<Octets>, value: Octets)
    ensures Fields(a + [value]) == Fields(a) + Field(value)
  {
    FieldsAppend(a, [value]);
    assert Fields([value]) == Field(value) + Fields([]);
  }

  lemma FieldsUpTo(f: seq<Octets>, i: nat)
    requires i < |f|
    ensures Fields(f[..i + 1]) == Fields(f[..i]) + Field(f[i])
  {
    FieldsSnoc(f[..i], f[i]);
    assert f[..i + 1] == f[..i] + [f[i]];
  }

  method JoinSecrets(secrets: seq<Octets>) returns (r: Octets)
    ensures r == Fields(secrets)
  {
    var buffer := new Buffer();
    for i := 0 to |secrets|
      invariant buffer.contents == Fields(secrets[..i])
      invariant fresh(buffer)
    {
      buffer.WriteBytes(secrets[i]);
      FieldsUpTo(secrets, i);
    }
    assert secrets[..|secrets|] == secrets;
    r := buffer.contents;
  }

  // Appends the next field of `f`; the buffer holds the encoding of the fields before it.
  method WriteNext(buffer: Buffer, value: Octets, ghost f: seq<Octets>, ghost i: nat)
    requires i < |f| && value == f[i] && buffer.contents == Fields(f[..i])
    modifies buffer
    ensures buffer.contents == Fields(f[..i + 1])
  {
    buffer.WriteBytes(value);
    FieldsUpTo(f, i);
  }

  method MarshalTranscript(t: Transcript) returns (r: Octets)
    ensures r == TranscriptOctets(t)
    ensures r == Fields([t.version, t.flow, t.pairingID, t.clientDeviceID, t.clientDeviceName,
                         t.serverDeviceID, t.serverDeviceName, t.clientEphemeralPublicKey, t.serverEphemeralPublicKey,
                         t.clientIdentityPublicKey, t.serverIdentityPublicKey])
  {
    ghost var f := TranscriptFields(t);
    var buffer := new Buffer();
    assert buffer.contents == Fields(f[..0]);
    WriteNext(buffer, t.version, f, 0);
    WriteNext(buffer, t.flow, f, 1);
    WriteNext(buffer, t.pairingID, f, 2);
    WriteNext(buffer, t.clientDeviceID, f, 3);
    WriteNext(buffer, t.clientDeviceName, f, 4);
    WriteNext(buffer, t.serverDeviceID, f, 5);
    WriteNext(buffer, t.serverDeviceName, f, 6);
    WriteNext(buffer, t.clientEphemeralPublicKey, f, 7);
    WriteNext(buffer, t.serverEphemeralPublicKey, f, 8);
    WriteNext(buffer, t.clientIdentityPublicKey, f, 9);
    WriteNext(buffer, t.serverIdentityPublicKey, f, 10);
    assert f[..11] == f;
    r := buffer.contents;
  }

  method AssociatedData(h: Header) returns (r: Octets)
    ensures r == HeaderOctets(h)
    ensures r == [Lit(h.version)] + Lits(BigEndian(h.sequence, 8)) + Field(h.sessionID) + Field(h.kind)
  {
    var buffer := new Buffer();
    buffer.Write([Lit(h.version)]);
    buffer.Write(Lits(BigEndian(h.sequence, 8)));
    buffer.WriteBytes(h.sessionID);
    buffer.WriteBytes(h.kind);
    r := buffer.contents;
  }

  // ---------- Parsers that invert them ----------

  predicate Short(value: Octets) {
    |value| < TWO_32
  }

  /** Splits off one length-prefixed field. */
  function TakeField(s: Octets): (r: Option<(Octets, Octets)>)
    ensures r.Some? ==> Short(r.value.0) && |s| == 4 + |r.value.0| + |r.value.1|
  {
    if |s| < 4 || !AllLits(s[..4]) then None
    else
      Widths(); FromBigEndianBound(Unlit(s[..4]));
      var n := FromBigEndian(Unlit(s[..4]));
      if |s| < 4 + n then None else Some((s[4..4 + n], s[4 + n..]))
  }

  function ParseFields(s: Octets): Option<seq<Octets>>
    decreases |s|
  {
    if s == [] then Some([])
    else match TakeField(s)
      case None => None
      case Some((value, rest)) =>
        match ParseFields(rest)
        case None => None
        case Some(values) => Some([value] + values)
  }

  function ParseTranscript(s: Octets): Option<Transcript> {
    match ParseFields(s)
    case None => None
    case Some(f) =>
      if |f| != 11 then None
      else Some(Transcript(f[0], f[1], f[2], f[3], f[4], f[5], f[6], f[7], f[8], f[9], f[10]))
  }

  function ParseHeader(s: Octets): Option<Header> {
    if |s| < 9 || !AllLits(s[..9]) then None
    else
      match TakeField(s[9..])
      case None => None
      case Some((sessionID, rest)) =>
        match TakeField(rest)
        case None => None
        case Some((kind, end)) =>
          Widths(); FromBigEndianBound(Unlit(s[1..9]));
          if end != [] then None else Some(Header(s[0].b, FromBigEndian(Unlit(s[1..9])), sessionID, kind))
  }

  lemma TakeFieldInverse(value: Octets, rest: Octets)
    requires Short(value)
    ensures TakeField(Field(value) + rest) == Some((value, rest))
  {
    Widths();
    var s := Field(value) + rest;
    assert s[..4] == Lits(BigEndian(|value|, 4));
    UnlitLits(BigEndian(|value|, 4));
    BigEndianInverse(|value|, 4);
    assert s[4..4 + |value|] == value && s[4 + |value|..] == rest;
  }

  lemma {:induction false} ParsedFieldsAreShort(s: Octets)
    ensures ParseFields(s).Some? ==> forall v :: v in ParseFields(s).value ==> Short(v)
    decreases |s|
  {
    if s != [] && TakeField(s).Some? {
      ParsedFieldsAreShort(TakeField(s).value.1);
    }
  }

  lemma {:induction false} ParseShortFields(values: seq<Octets>)
    requires forall v :: v in values ==> Short(v)
    ensures ParseFields(Fields(values)) == Some(values)
  {
    if values != [] {
      ParseShortFields(values[1..]);
      TakeFieldInverse(values[0], Fields(values[1..]));
      assert values == [values[0]] + values[1..];
    }
  }

  /** Joined secrets are uniquely decodable exactly when every secret is shorter than 2^32 bytes. */
  lemma JoinedSecretsDecode(values: seq<Octets>)
    ensures ParseFields(Fields(values)) == Some(values) <==> forall v :: v in values ==> Short(v)
  {
    if forall v :: v in values ==> Short(v) {
      ParseShortFields(values);
    }
    ParsedFieldsAreShort(Fields(values));
  }

  predicate ShortTranscript(t: Transcript) {
    forall v :: v in TranscriptFields(t) ==> Short(v)
  }

  /** A transcript is recovered from its encoding exactly when every field is shorter than 2^32 bytes. */
  lemma TranscriptDecodes(t: Transcript)
    ensures ParseTranscript(TranscriptOctets(t)) == Some(t) <==> ShortTranscript(t)
  {
    JoinedSecretsDecode(TranscriptFields(t));
    var parsed := ParseFields(TranscriptOctets(t));
    if ParseTranscript(TranscriptOctets(t)) == Some(t) {
      assert parsed.value == TranscriptFields(t);
    }
  }

  lemma HeaderLayout(h: Header)
    ensures var s := HeaderOctets(h);
            && |s| == 17 + |h.sessionID| + |h.kind|
            && s[0] == Lit(h.version)
            && s[1..9] == Lits(BigEndian(h.sequence, 8))
            && s[9..] == Field(h.sessionID) + Field(h.kind)
  {
    hide BigEndian, Field;
  }

  lemma HeaderPrefix(h: Header)
    ensures var s := HeaderOctets(h);
            && AllLits(s[..9]) && s[0] == Lit(h.version)
            && FromBigEndian(Unlit(s[1..9])) == h.sequence
  {
    HeaderLayout(h);
    hide HeaderOctets;
    Widths();
    var sequence := BigEndian(h.sequence, 8);
    UnlitLits(sequence);
    BigEndianInverse(h.sequence, 8);
    var s := HeaderOctets(h);
    assert forall i :: 1 <= i < 9 ==> s[i] == s[1..9][i - 1];
  }

  /** A header is recovered from its associated data exactly when its two variable fields are shorter than 2^32. */
  lemma HeaderDecodes(h: Header)
    ensures ParseHeader(HeaderOctets(h)) == Some(h) <==> Short(h.sessionID) && Short(h.kind)
  {
    if Short(h.sessionID) && Short(h.kind) {
      HeaderLayout(h);
      HeaderPrefix(h);
      hide HeaderOctets;
      assert Field(h.kind) + [] == Field(h.kind);
      TakeFieldInverse(h.sessionID, Field(h.kind));
      TakeFieldInverse(h.kind, []);
    }
  }

  lemma SecretsInjective(a: seq<Octets>, b: seq<Octets>)
    requires forall v :: v in a + b ==> Short(v)
    requires Fields(a) == Fields(b)
    ensures a == b
  {
    assert forall v :: v in a ==> v in a + b;
    assert forall v :: v in b ==> v in a + b;
    JoinedSecretsDecode(a);
    JoinedSecretsDecode(b);
  }

  lemma TranscriptInjective(t: Transcript, u: Transcript)
    requires ShortTranscript(t) && ShortTranscript(u)
    requires TranscriptOctets(t) == TranscriptOctets(u)
    ensures t == u
  {
    TranscriptDecodes(t);
    TranscriptDecodes(u);
  }

  /** Within one session the associated data fixes the whole header, whatever the length of its fields. */
  lemma HeaderInjective(g: Header, h: Header)
    requires g.sessionID == h.sessionID
    requires HeaderOctets(g) == HeaderOctets(h)
    ensures g == h
  {
    HeaderPrefix(g);
    HeaderPrefix(h);
    HeaderLayout(g);
    HeaderLayout(h);
    hide HeaderOctets;
    var rest := Field(g.sessionID) + Field(g.kind);
    assert rest == Field(h.sessionID) + Field(h.kind);
    var start := 8 + |g.sessionID|;
    assert rest[start..] == g.kind && rest[start..] == h.kind;
  }

  // ---------- The bound on field lengths is needed ----------

  lemma {:induction false} EmptyFields(n: nat)
    ensures Fields(seq(n, _ => [])) == Lits(Zeros(4 * n))
  {
    var empties: seq<Octets> := seq(n, _ => []);
    if n > 0 {
      EmptyFields(n - 1);
      assert empties[1..] == seq(n - 1, _ => []);
      ZeroLength();
      assert Field([]) == Lits(Zeros(4)) + [];
      assert Fields(empties) == Lits(Zeros(4)) + Lits(Zeros(4 * (n - 1)));
    }
  }

  lemma ZeroLength()
    ensures BigEndian(0, 4) == Zeros(4)
  {
    assert BigEndian(0, 0) == [];
    assert BigEndian(0, 1) == [0];
    assert BigEndian(0, 2) == [0, 0];
    assert BigEndian(0, 3) == [0, 0, 0];
  }

  /** One secret of 2^32 zero bytes encodes exactly as 2^30 + 1 empty secrets do. */
  lemma LongSecretCollides()
    ensures var long: Octets := Lits(Zeros(TWO_32));
            var empties: seq<Octets> := seq(TWO_32 / 4 + 1, _ => []);
            Fields([long]) == Fields(empties) && [long] != empties
  {
    var long := Lits(Zeros(TWO_32));
    var empties: seq<Octets> := seq(TWO_32 / 4 + 1, _ => []);
    EmptyFields(TWO_32 / 4 + 1);
    ZeroLength();
    assert |empties| != |[long]|;
    assert Fields([long]) == Field(long) + Fields([]);
    assert Fields([long]) == Lits(Zeros(4)) + long;
    assert Lits(Zeros(4)) + long == Lits(Zeros(TWO_32 + 4));
  }
}
