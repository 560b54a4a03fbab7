/** Symbolic cryptography over concrete octet strings.

    A byte string is a sequence of octets.  An octet is either a literal byte or
    the byte at some position of the output of a cryptographic operation, which is
    named by the term describing that operation and its inputs.  Lengths, slicing,
    concatenation and comparison are therefore the ordinary sequence operations,
    and an operation is injective because terms are free. */
module Symbolic {
  import opened Wrappers
  import opened Bytes

  type PrivateKey = seq<byte>

  datatype Octet =
    | Lit(b: byte)
    | Part(term: Term, index: nat)

  type Octets = seq<Octet>

  datatype Term =
    | PublicKey(private: PrivateKey)
    | SharedSecret(keys: set<PrivateKey>)                  // RFC 7748 section 6.1: an unordered pair
    | ForeignSecret(private: PrivateKey, point: Octets)    // agreement with a point nobody here generated
    | Hash(data: Octets)
    | Mac(key: Octets, data: Octets)
    | Hkdf(secret: Octets, salt: Octets, info: Octets)     // RFC 5869 section 2
    | Sealed(key: Octets, nonce: Octets, plaintext: Octets, additional: Octets) // RFC 8439 section 2.8

  const KEY_SIZE: nat := 32
  const NONCE_SIZE: nat := 12
  const TAG_SIZE: nat := 16
  const SESSION_ID_SIZE: nat := 32

  /** The first `n` bytes of the output of `t`. */
  function Expand(t: Term, n: nat): (r: Octets)
    ensures |r| == n
  {
    seq(n, (i: nat) => Part(t, i))
  }

  function Lits(bytes: seq<byte>): (r: Octets)
    ensures |r| == |bytes|
  {
    seq(|bytes|, i requires 0 <= i < |bytes| => Lit(bytes[i]))
  }

  predicate AllLits(s: Octets) {
    forall i :: 0 <= i < |s| ==> s[i].Lit?
  }

  function Unlit(s: Octets): (r: seq<byte>)
    requires AllLits(s)
    ensures |r| == |s|
  {
    seq(|s|, i requires 0 <= i < |s| => s[i].b)
  }

  lemma UnlitLits(bytes: seq<byte>)
    ensures AllLits(Lits(bytes)) && Unlit(Lits(bytes)) == bytes
  {
    assert Unlit(Lits(bytes)) == bytes;
  }

  function Ascii(s: string): (r: Octets)
    ensures |r| == |s|
  {
    seq(|s|, i requires 0 <= i < |s| => Lit(s[i] as int % 256))
  }

  lemma ExpandInjective(t: Term, u: Term, n: nat, m: nat)
    requires Expand(t, n) == Expand(u, m) && n > 0
    ensures t == u && n == m
  {
    assert Expand(t, n)[0] == Expand(u, m)[0];
  }

  function PublicOf(private: PrivateKey): Octets {
    Expand(PublicKey(private), KEY_SIZE)
  }

  /** A 32-byte string is accepted as a point; the all-zero string stands for the points of low order, on
      which agreement fails. */
  function SharedSecretOf(private: PrivateKey, peer: Octets): Option<Octets> {
    if |peer| != KEY_SIZE || peer == Lits(Zeros(KEY_SIZE)) then None
    else if peer[0].Part? && peer[0].term.PublicKey? && peer == PublicOf(peer[0].term.private) then
      Some(Expand(SharedSecret({private, peer[0].term.private}), KEY_SIZE))
    else
      Some(Expand(ForeignSecret(private, peer), KEY_SIZE))
  }

  lemma AgreementCommutes(a: PrivateKey, b: PrivateKey)
    ensures SharedSecretOf(a, PublicOf(b)) == SharedSecretOf(b, PublicOf(a))
            == Some(Expand(SharedSecret({a, b}), KEY_SIZE))
  {
    assert PublicOf(a)[0] == Part(PublicKey(a), 0) && PublicOf(b)[0] == Part(PublicKey(b), 0);
    assert Lits(Zeros(KEY_SIZE))[0] == Lit(0);
    assert {a, b} == {b, a};
  }

  function SealOctets(key: Octets, nonce: Octets, plaintext: Octets, additional: Octets): (r: Octets)
    ensures |r| == |plaintext| + TAG_SIZE
  {
    Expand(Sealed(key, nonce, plaintext, additional), |plaintext| + TAG_SIZE)
  }

  function Open(key: Octets, nonce: Octets, combined: Octets, additional: Octets): (r: Option<Octets>)
    ensures r.Some? ==> combined == SealOctets(key, nonce, r.value, additional)
  {
    if |combined| >= TAG_SIZE && combined[0].Part? && combined[0].term.Sealed?
       && combined == SealOctets(key, nonce, combined[0].term.plaintext, additional)
    then Some(combined[0].term.plaintext)
    else None
  }

  /** Opening succeeds on exactly the sealings under the same key, nonce and additional data. */
  lemma OpenIffSealed(key: Octets, nonce: Octets, combined: Octets, additional: Octets, plaintext: Octets)
    ensures Open(key, nonce, combined, additional) == Some(plaintext)
            <==> combined == SealOctets(key, nonce, plaintext, additional)
  {
    if combined == SealOctets(key, nonce, plaintext, additional) {
      assert combined[0] == Part(Sealed(key, nonce, plaintext, additional), 0);
    }
  }
}
