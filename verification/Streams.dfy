/**
 Byte streams that deliver and accept data in pieces of any size, and the loops of
 fbus/fbus_stream.c that make up for it.
 */
module Streams {
  import opened Bytes

  /** One direction of a connection: the bytes under way. */
  class Pipe {
    var bytes: seq<byte>
    var closed: bool

    constructor ()
      ensures bytes == [] && !closed
    {
      bytes, closed := [], false;
    }
  }

  /** One end of a connection. */
  class Stream {
    const fd: int
    const incoming: Pipe
    const outgoing: Pipe

    constructor (fd: int, incoming: Pipe, outgoing: Pipe)
      ensures this.fd == fd && this.incoming == incoming && this.outgoing == outgoing
    {
      this.fd, this.incoming, this.outgoing := fd, incoming, outgoing;
    }

    /** recv: any non-empty piece of what has arrived, or nothing when there is nothing. */
    method Read(len: nat) returns (piece: seq<byte>)
      modifies incoming`bytes
      ensures old(incoming.bytes) == piece + incoming.bytes
      ensures |piece| <= len && (len > 0 && old(incoming.bytes) != [] ==> piece != [])
    {
      piece := [];
      if len > 0 && incoming.bytes != [] {
        var k: nat :| 1 <= k && k <= len && k <= |incoming.bytes|;
        piece := incoming.bytes[..k];
        incoming.bytes := incoming.bytes[k..];
      }
    }

    /** send: accepts any non-empty prefix, or returns -1 on a closed connection. */
    method Write(buffer: seq<byte>) returns (ret: int)
      modifies outgoing`bytes
      ensures outgoing.closed ==> ret == -1 && outgoing.bytes == old(outgoing.bytes)
      ensures !outgoing.closed ==>
                && 0 <= ret <= |buffer| && (buffer != [] ==> ret > 0)
                && outgoing.bytes == old(outgoing.bytes) + buffer[..ret]
    {
      if outgoing.closed {
        return -1;
      }
      ret := 0;
      if buffer != [] {
        ret :| 1 <= ret <= |buffer|;
      }
      outgoing.bytes := outgoing.bytes + buffer[..ret];
    }

    /** fbus_stream_read_n: however the data is cut up, it collects `len` bytes if there are so many. */
    method ReadN(len: nat) returns (got: seq<byte>)
      modifies incoming`bytes
      ensures old(incoming.bytes) == got + incoming.bytes
      ensures |got| == Min(len, |old(incoming.bytes)|)
    {
      got := [];
      var remain: nat, more := len, true;
      while more
        invariant remain + |got| == len
        invariant old(incoming.bytes) == got + incoming.bytes
        invariant !more ==> remain == 0 || incoming.bytes == []
        decreases more, remain
      {
        var piece := Read(remain);
        var ret: nat := |piece|;
        if ret > 0 {
          got := got + piece;
          remain := remain - ret;
        }
        more := remain > 0 && ret > 0;
      }
    }

    /** fbus_stream_write_n: all of the buffer goes out, unless the connection is closed. */
    method WriteN(buffer: seq<byte>) returns (count: nat)
      modifies outgoing`bytes
      ensures !outgoing.closed ==> count == |buffer| && outgoing.bytes == old(outgoing.bytes) + buffer
      ensures outgoing.closed ==> count == 0 && outgoing.bytes == old(outgoing.bytes)
    {
      var remain: nat, more := |buffer|, true;
      while more
        invariant remain <= |buffer|
        invariant outgoing.closed ==> remain == |buffer| && outgoing.bytes == old(outgoing.bytes)
        invariant !outgoing.closed ==> outgoing.bytes == old(outgoing.bytes) + buffer[..|buffer| - remain]
        invariant !more && !outgoing.closed ==> remain == 0
        decreases more, remain
      {
        var from := |buffer| - remain;
        var ret := Write(buffer[from..]);
        if ret > 0 {
          assert buffer[..from] + buffer[from..][..ret] == buffer[..from + ret];
          remain := remain - ret;
        }
        more := remain > 0 && ret > 0;
      }
      count := |buffer| - remain;
    }
  }
}
