/** Generation of the six-digit pairing PIN by rejection sampling. */
module Pin {
  import opened Wrappers
  import opened Bytes
  import opened Streams

  const PIN_LENGTH: nat := 6
  const USABLE_BELOW: nat := 250
  const ASCII_ZERO: byte := 48

  function Digit(b: byte): byte {
    ASCII_ZERO + b % 10
  }

  function Digits(bytes: seq<byte>): (r: seq<byte>)
    ensures |r| == |bytes|
  {
    seq(|bytes|, i requires 0 <= i < |bytes| => Digit(bytes[i]))
  }

  /** The bytes of a stream that the generator does not reject. */
  function Usable(data: seq<byte>): seq<byte> {
    if data == [] then []
    else (if data[0] < USABLE_BELOW then [data[0]] else []) + Usable(data[1..])
  }

  /** Reads until `count` usable bytes are in or the stream ends: what is left, and the usable bytes read. */
  function Draw(data: seq<byte>, count: nat): (seq<byte>, seq<byte>) {
    if count == 0 || data == [] then (data, [])
    else if data[0] >= USABLE_BELOW then Draw(data[1..], count)
    else
      var (rest, drawn) := Draw(data[1..], count - 1);
      (rest, [data[0]] + drawn)
  }

  function PinStep(data: seq<byte>): (r: (seq<byte>, Option<seq<byte>>))
    ensures r.1.Some? ==> |r.1.value| == PIN_LENGTH
  {
    DrawIsFilter(data, PIN_LENGTH);
    var (rest, drawn) := Draw(data, PIN_LENGTH);
    if |drawn| < PIN_LENGTH then (rest, None) else (rest, Some(Digits(drawn)))
  }

  // The outcome of drawing more bytes after `drawn` are in.
  function After(drawn: seq<byte>, more: (seq<byte>, seq<byte>)): (seq<byte>, seq<byte>) {
    (more.0, drawn + more.1)
  }

  lemma DrawOne(data: seq<byte>, count: nat, drawn: seq<byte>)
    requires count > 0 && data != []
    ensures After(drawn, Draw(data, count))
            == if data[0] >= USABLE_BELOW then After(drawn, Draw(data[1..], count))
               else After(drawn + [data[0]], Draw(data[1..], count - 1))
  {
    if data[0] < USABLE_BELOW {
      Reassociate(drawn, [data[0]], Draw(data[1..], count - 1).1);
    }
  }

  method RandomPIN(reader: Reader) returns (r: Option<seq<byte>>)
    modifies reader
    ensures (reader.data, r) == PinStep(old(reader.data))
  {
    var raw := new byte[PIN_LENGTH];
    ghost var drawn: seq<byte> := [];
    assert forall s: seq<byte> :: [] + s == s;
    for index := 0 to PIN_LENGTH
      invariant |drawn| == index && raw[..index] == Digits(drawn)
      invariant Draw(old(reader.data), PIN_LENGTH) == After(drawn, Draw(reader.data, PIN_LENGTH - index))
    {
      while true
        invariant |drawn| == index && raw[..index] == Digits(drawn)
        invariant Draw(old(reader.data), PIN_LENGTH) == After(drawn, Draw(reader.data, PIN_LENGTH - index))
        decreases |reader.data|
      {
        ghost var before := reader.data;
        var oneByte := reader.ReadFull(1);
        if oneByte.None? {
          assert drawn + [] == drawn;
          return None;
        }
        DrawOne(before, PIN_LENGTH - index, drawn);
        if oneByte.value[0] >= USABLE_BELOW {
          continue;
        }
        raw[index] := Digit(oneByte.value[0]);
        drawn := drawn + [oneByte.value[0]];
        break;
      }
    }
    assert raw[..] == raw[..PIN_LENGTH] && drawn + [] == drawn;
    r := Some(raw[..]);
  }

  lemma {:induction false} DrawIsFilter(data: seq<byte>, count: nat)
    ensures var (rest, drawn) := Draw(data, count);
            var usable := Usable(data);
            && drawn == usable[..if count <= |usable| then count else |usable|]
            && |rest| <= |data| && data[|data| - |rest|..] == rest
            && Usable(data[..|data| - |rest|]) == drawn
  {
    hide Draw, Usable;
    DrawUnfolds(data, count);
    UsableUnfolds(data);
    if count == 0 || data == [] {
      assert data[|data| - |data|..] == data && data[..|data| - |data|] == [];
      UsableUnfolds([]);
    } else {
      var tail := data[1..];
      var next := if data[0] >= USABLE_BELOW then count else count - 1;
      DrawIsFilter(tail, next);
      var rest := Draw(tail, next).0;
      var read := data[..|data| - |rest|];
      assert read[1..] == tail[..|tail| - |rest|] && read[0] == data[0];
      assert data[|data| - |rest|..] == tail[|tail| - |rest|..];
      UsableUnfolds(read);
    }
  }

  lemma DrawUnfolds(data: seq<byte>, count: nat)
    ensures Draw(data, count)
            == if count == 0 || data == [] then (data, [])
               else if data[0] >= USABLE_BELOW then Draw(data[1..], count)
               else (Draw(data[1..], count - 1).0, [data[0]] + Draw(data[1..], count - 1).1)
  {
  }

  lemma UsableUnfolds(data: seq<byte>)
    ensures Usable(data)
            == if data == [] then []
               else if data[0] < USABLE_BELOW then [data[0]] + Usable(data[1..])
               else Usable(data[1..])
  {
  }

  /** The PIN is the first six bytes below 250, each taken mod 10 and written as a digit; the only error is a
      stream that ends before the sixth. */
  lemma PinIsFilterAndMap(data: seq<byte>)
    ensures PinStep(data).1
            == if |Usable(data)| >= PIN_LENGTH then Some(Digits(Usable(data)[..PIN_LENGTH])) else None
  {
    DrawIsFilter(data, PIN_LENGTH);
  }

  // ---------- Every PIN is equally likely ----------

  predicate IsPin(pin: seq<byte>) {
    forall i :: 0 <= i < |pin| ==> ASCII_ZERO <= pin[i] < ASCII_ZERO + 10
  }

  predicate AllUsable(s: seq<byte>) {
    forall i :: 0 <= i < |s| ==> s[i] < USABLE_BELOW
  }

  function Pow25(n: nat): nat {
    if n == 0 then 1 else 25 * Pow25(n - 1)
  }

  /** The usable bytes that give one digit: 25 of them, 10 apart, listed from the largest. */
  function BytesFor(digit: byte, n: nat): set<byte>
    requires ASCII_ZERO <= digit < ASCII_ZERO + 10 && n <= 25
  {
    set i | 0 <= i < n :: digit - ASCII_ZERO + 10 * i
  }

  function OnePrefix(head: byte, tails: set<seq<byte>>): set<seq<byte>> {
    set s | s in tails :: [head] + s
  }

  ghost function Product(heads: set<byte>, tails: set<seq<byte>>): set<seq<byte>> {
    set b, s | b in heads && s in tails :: [b] + s
  }

  /** The accepted byte strings that give one PIN. */
  ghost function Preimages(pin: seq<byte>): set<seq<byte>>
    requires IsPin(pin)
  {
    if pin == [] then {[]} else Product(BytesFor(pin[0], 25), Preimages(pin[1..]))
  }

  lemma {:induction false} BytesForSize(digit: byte, n: nat)
    requires ASCII_ZERO <= digit < ASCII_ZERO + 10 && n <= 25
    ensures |BytesFor(digit, n)| == n
  {
    if n > 0 {
      BytesForSize(digit, n - 1);
      assert BytesFor(digit, n) == BytesFor(digit, n - 1) + {digit - ASCII_ZERO + 10 * (n - 1)};
    }
  }

  lemma {:induction false} OnePrefixSize(head: byte, tails: set<seq<byte>>)
    ensures |OnePrefix(head, tails)| == |tails|
  {
    if tails != {} {
      var t :| t in tails;
      OnePrefixSize(head, tails - {t});
      assert OnePrefix(head, tails) == OnePrefix(head, tails - {t}) + {[head] + t};
      assert forall s: seq<byte> :: ([head] + s)[1..] == s;
    }
  }

  lemma ProductSplit(h: byte, heads: set<byte>, tails: set<seq<byte>>)
    requires h in heads
    ensures Product(heads, tails) == Product(heads - {h}, tails) + OnePrefix(h, tails)
    ensures Product(heads - {h}, tails) !! OnePrefix(h, tails)
  {
    forall x
      ensures x in Product(heads, tails) <==> x in Product(heads - {h}, tails) || x in OnePrefix(h, tails)
    {
      if x in Product(heads, tails) {
        var b, s :| b in heads && s in tails && x == [b] + s;
        assert b == h || b in heads - {h};
      }
    }
    forall x | x in OnePrefix(h, tails)
      ensures x !in Product(heads - {h}, tails)
    {
      assert x[0] == h;
    }
  }

  // `n * t`, by repeated addition.
  function Times(n: nat, t: nat): nat {
    if n == 0 then 0 else Times(n - 1, t) + t
  }

  lemma EmptyProduct(tails: set<seq<byte>>)
    ensures Product({}, tails) == {}
  {
  }

  lemma {:induction false} ProductSize(heads: set<byte>, tails: set<seq<byte>>)
    ensures |Product(heads, tails)| == Times(|heads|, |tails|)
  {
    hide Product, OnePrefix;
    if heads == {} {
      EmptyProduct(tails);
    } else {
      var h :| h in heads;
      ProductSize(heads - {h}, tails);
      ProductSplit(h, heads, tails);
      OnePrefixSize(h, tails);
    }
  }

  lemma {:induction false} TimesIsProduct(n: nat, t: nat)
    ensures Times(n, t) == n * t
  {
    if n > 0 {
      TimesIsProduct(n - 1, t);
    }
  }

  lemma PrependDigit(b: byte, s: seq<byte>)
    ensures Digits([b] + s) == [Digit(b)] + Digits(s)
    ensures AllUsable([b] + s) <==> b < USABLE_BELOW && AllUsable(s)
  {
    var all := [b] + s;
    assert Digits(all) == [Digit(b)] + Digits(s) by {
      hide Digit;
    }
    if AllUsable(all) {
      assert all[0] == b && forall i :: 0 <= i < |s| ==> all[i + 1] == s[i];
    }
  }

  lemma BytesForDigit(digit: byte, b: byte)
    requires ASCII_ZERO <= digit < ASCII_ZERO + 10
    ensures b in BytesFor(digit, 25) <==> b < USABLE_BELOW && Digit(b) == digit
  {
    if b < USABLE_BELOW && Digit(b) == digit {
      var i := b / 10;
      assert 0 <= i < 25 && b == digit - ASCII_ZERO + 10 * i;
    }
  }

  lemma {:induction false} PreimagesAre(pin: seq<byte>, s: seq<byte>)
    requires IsPin(pin)
    ensures s in Preimages(pin) <==> AllUsable(s) && Digits(s) == pin
  {
    if pin == [] {
      assert s == [] <==> |Digits(s)| == 0;
    } else if s == [] {
      assert |Digits(s)| != |pin|;
      assert forall b: byte, t: seq<byte> :: [b] + t != s;
    } else {
      var b, t := s[0], s[1..];
      assert s == [b] + t;
      assert pin == [pin[0]] + pin[1..];
      PreimagesAre(pin[1..], t);
      BytesForDigit(pin[0], b);
      PrependDigit(b, t);
      assert forall c: byte, u: seq<byte> :: [c] + u == s ==> c == b && u == t by {
        assert forall c: byte, u: seq<byte> :: ([c] + u)[0] == c && ([c] + u)[1..] == u;
      }
    }
  }

  lemma {:induction false} PreimagesSize(pin: seq<byte>)
    requires IsPin(pin)
    ensures |Preimages(pin)| == Pow25(|pin|)
  {
    if pin != [] {
      PreimagesSize(pin[1..]);
      BytesForSize(pin[0], 25);
      ProductSize(BytesFor(pin[0], 25), Preimages(pin[1..]));
      TimesIsProduct(25, |Preimages(pin[1..])|);
    }
  }

  /** Each six-digit PIN comes from exactly 25^6 of the accepted six-byte strings. */
  lemma PinsAreUniform(pin: seq<byte>)
    requires IsPin(pin) && |pin| == PIN_LENGTH
    ensures forall s :: s in Preimages(pin) <==> AllUsable(s) && Digits(s) == pin
    ensures |Preimages(pin)| == 244140625
  {
    forall s
      ensures s in Preimages(pin) <==> AllUsable(s) && Digits(s) == pin
    {
      PreimagesAre(pin, s);
    }
    PreimagesSize(pin);
    assert Pow25(6) == 25 * Pow25(5) && Pow25(5) == 25 * Pow25(4) && Pow25(4) == 25 * Pow25(3);
  }
}
