/** A connected socket, as one of its two ends sees it: a reliable byte stream in each
    direction, of which any call may move only a part. */
module Sockets {
  import opened Files

  class Socket {
    var incoming: Bytes  // sent by the peer, not yet received
    var outgoing: Bytes  // everything sent so far

    constructor (fromPeer: Bytes)
      ensures incoming == fromPeer && outgoing == []
    {
      incoming, outgoing := fromPeer, [];
    }

    // recv: nothing once the peer has closed, otherwise between one byte and `len`.
    method Receive(len: nat) returns (data: Bytes)
      modifies this`incoming
      ensures |data| <= len && old(incoming) == data + incoming
      ensures len > 0 && old(incoming) != [] ==> data != []
    {
      data := [];
      if len > 0 && incoming != [] {
        var most := Min(len, |incoming|);
        var n :| 1 <= n <= most;
        data, incoming := incoming[..n], incoming[n..];
      }
    }

    // send: accepts between one byte and all of them.
    method SendData(data: Bytes) returns (sent: nat)
      modifies this`outgoing
      ensures sent <= |data| && outgoing == old(outgoing) + data[..sent]
      ensures data != [] ==> sent > 0
    {
      sent := 0;
      if data != [] {
        sent :| 1 <= sent <= |data|;
      }
      outgoing := outgoing + data[..sent];
    }

    // sendfile: advances `offset` by what it sent, nothing at the end of the file.
    method SendFile(file: Bytes, offset: nat, chunk: nat) returns (newOffset: nat)
      modifies this`outgoing
      ensures offset <= newOffset <= offset + chunk
      ensures newOffset == offset || newOffset <= |file|
      ensures chunk > 0 && offset < |file| ==> newOffset > offset
      ensures outgoing == old(outgoing) + Slice(file, offset, newOffset - offset)
    {
      newOffset := offset;
      var available := Slice(file, offset, chunk);
      if available != [] {
        var n :| 1 <= n <= |available|;
        newOffset := offset + n;
      }
      outgoing := outgoing + Slice(file, offset, newOffset - offset);
    }
  }
}
