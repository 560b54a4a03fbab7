/** A source of bytes that is consumed from the front, such as a random source or a buffered connection, and a
    connection that is written to. */
module Streams {
  import opened Wrappers
  import opened Bytes

  /** Reading exactly `n` bytes; a source that ends first is used up and yields nothing. */
  function Take(data: seq<byte>, n: nat): (seq<byte>, Option<seq<byte>>) {
    if n <= |data| then (data[n..], Some(data[..n])) else ([], None)
  }

  class Reader {
    var data: seq<byte>

    constructor (data: seq<byte>)
      ensures this.data == data
    {
      this.data := data;
    }

    method ReadFull(n: nat) returns (r: Option<seq<byte>>)
      modifies this
      ensures (data, r) == Take(old(data), n)
      ensures if n <= |old(data)| then r == Some(old(data)[..n]) && data == old(data)[n..] else r == None && data == []
    {
      if n <= |data| {
        r := Some(data[..n]);
        data := data[n..];
      } else {
        r := None;
        data := [];
      }
    }
  }

  /** Writing to a connection that takes `room` more bytes before it fails: what was sent, the room left, and whether
      the write succeeded. */
  function Put(sent: seq<byte>, room: nat, bytes: seq<byte>): (seq<byte>, nat, bool) {
    if |bytes| <= room then (sent + bytes, room - |bytes|, true) else (sent + bytes[..room], 0, false)
  }

  lemma PutTwice(sent: seq<byte>, room: nat, a: seq<byte>, b: seq<byte>)
    ensures var (sent1, room1, ok) := Put(sent, room, a);
            Put(sent, room, a + b) == if ok then Put(sent1, room1, b) else (sent1, room1, false)
  {
    if |a| > room {
      assert (a + b)[..room] == a[..room];
    } else if |a + b| > room {
      assert (a + b)[..room] == a + b[..room - |a|];
      Reassociate(sent, a, b[..room - |a|]);
    } else {
      Reassociate(sent, a, b);
    }
  }

  class Writer {
    var sent: seq<byte>
    var room: nat

    constructor (room: nat)
      ensures sent == [] && this.room == room
    {
      sent := [];
      this.room := room;
    }

    method Write(bytes: seq<byte>) returns (ok: bool)
      modifies this
      ensures (sent, room, ok) == Put(old(sent), old(room), bytes)
      ensures ok <==> |bytes| <= old(room)
      ensures sent == old(sent) + if ok then bytes else bytes[..old(room)]
    {
      ok := |bytes| <= room;
      sent := sent + if ok then bytes else bytes[..room];
      room := if ok then room - |bytes| else 0;
    }
  }
}
