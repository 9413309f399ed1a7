/** The client's end of fbus: sending a request and receiving what comes back (fbus/fbus_proxy.c). */
module Proxies {
  import opened Bytes
  import opened ParcelFormat
  import opened Parcels
  import opened Streams
  import opened Frames
  import opened Wire

  class Proxy {
    var busy: bool
    var parcel: Parcel?
    const stream: Stream
    var listening: bool
    /** What the listener has been called with. */
    var delivered: seq<Push>

    ghost predicate Valid()
      reads this, parcel
    {
      parcel != null ==> parcel.Valid()
    }

    constructor (stream: Stream)
      ensures Valid() && !busy && parcel == null && this.stream == stream && !listening && delivered == []
    {
      busy, parcel, listening, delivered := false, null, false, [];
      this.stream := stream;
    }

    /** fbus_proxy_get_parcel */
    method GetParcel() returns (p: Parcel)
      requires Valid()
      modifies this`parcel, parcel
      ensures Valid() && p == parcel && p.size == p.cursor == 0 && p.Written([])
      ensures if old(parcel) == null then fresh(p) && fresh(p.data) else p == old(parcel) && p.data == old(parcel.data)
    {
      if parcel == null {
        parcel := new Parcel(256);
      } else {
        parcel.Reset();
      }
      p := parcel;
    }

    /** fbus_proxy_send_request */
    method SendRequest(p: Parcel) returns (ok: bool)
      requires p.Valid() && SizeOk(p.Content())
      modifies stream.outgoing`bytes
      ensures ok <==> !stream.outgoing.closed
      ensures stream.outgoing.bytes == old(stream.outgoing.bytes) + if ok then Sized(p.Content()) else []
    {
      hide IntBytes;
      ok := SendSized(p, stream);
    }

    /** One round of the receiving loop. */
    method RecvFrame(p: Parcel) returns (ok: bool, kind: int32, trigger: int32)
      requires p.Valid() && FrontFrame(stream.incoming.bytes) != Negative
      modifies p, p.data, stream.incoming`bytes
      ensures p.Valid() && (p.data == old(p.data) || fresh(p.data))
      ensures ok <==> FrontFrame(old(stream.incoming.bytes)).Frame?
      ensures ok ==>
                var f := FrontFrame(old(stream.incoming.bytes));
                && f.kind == kind && (kind == FBUS_RESP_PUSH ==> f.trigger == trigger)
                && f.payload == p.Content() && p.cursor == 0
                && stream.incoming.bytes == old(stream.incoming.bytes)[f.length..]
    {
      hide IntAt, IntBytes;
      ghost var s := stream.incoming.bytes;
      ok, kind, trigger := false, 0, 0;
      p.Reset();
      var type_ := ReadInt(stream);
      if type_.None? {
        return;
      }
      kind := type_.value;
      ghost var h := 4;
      if kind == FBUS_RESP_PUSH {
        IntTail(s, 4);
        var t := ReadInt(stream);
        if t.None? {
          return;
        }
        trigger, h := t.value, 8;
      }
      assert stream.incoming.bytes == s[h..];
      IntTail(s, h);
      var size := ReadInt(stream);
      if size.None? {
        return;
      }
      ok := Fill(p, stream, size.value);
    }

    /** fbus_proxy_recv_response, whatever pieces the data arrive in. */
    method RecvResponse(p: Parcel) returns (ok: bool)
      requires p.Valid() && Receive(stream.incoming.bytes).ending != NegativeSize
      modifies this`delivered, p, p.data, stream.incoming`bytes
      ensures p.Valid() && (p.data == old(p.data) || fresh(p.data))
      ensures var r := Receive(old(stream.incoming.bytes));
              && delivered == old(delivered) + (if listening then r.pushes else [])
              && (ok <==> r.ending.Received?)
              && (ok ==> p.Content() == r.ending.payload && p.cursor == 0 && stream.incoming.bytes == r.ending.rest)
    {
      hide FrontFrame, Receive;
      ghost var r := Receive(stream.incoming.bytes);
      ghost var heard: seq<Push> := [];
      var more := true;
      while more
        invariant p.Valid() && (p.data == old(p.data) || fresh(p.data))
        invariant delivered == old(delivered) + if listening then heard else []
        invariant more ==>
            var now := Receive(stream.incoming.bytes);
            r == Reception(heard + now.pushes, now.ending)
        invariant !more ==> r.pushes == heard
        invariant !more ==> r.ending == Received(p.Content(), stream.incoming.bytes) && p.cursor == 0
        decreases more, |stream.incoming.bytes|
      {
        ghost var s := stream.incoming.bytes;
        ReceiveStep(s);
        var framed, kind, trigger := RecvFrame(p);
        if !framed {
          return false;
        }
        if kind == FBUS_RESP_PUSH {
          if listening {
            delivered := delivered + [Push(trigger, p.data[..p.size])];
          }
          Shift(heard, Push(trigger, p.Content()), Receive(stream.incoming.bytes).pushes);
          heard := heard + [Push(trigger, p.Content())];
        }
        more := kind != FBUS_RESP_NORMAL;
      }
      ok := true;
    }
  }

  /** What one frame contributes. */
  lemma ReceiveStep(s: seq<byte>)
    ensures FrontFrame(s).Short? ==> Receive(s) == Reception([], CutOff)
    ensures FrontFrame(s).Negative? ==> Receive(s).ending == NegativeSize
    ensures FrontFrame(s).Frame? ==>
              var f := FrontFrame(s);
              var later := Receive(s[f.length..]);
              Receive(s) == if f.kind == FBUS_RESP_NORMAL then Reception([], Received(f.payload, s[f.length..]))
                            else if f.kind == FBUS_RESP_PUSH
                            then Reception([Push(f.trigger, f.payload)] + later.pushes, later.ending)
                            else later
  {
    hide FrontFrame;
  }

  lemma Shift<T>(a: seq<T>, x: T, b: seq<T>)
    ensures a + ([x] + b) == a + [x] + b
  {
  }

  lemma IntTail(s: seq<byte>, i: nat)
    ensures i + 4 <= |s| ==> IntAt(s[i..], 0) == IntAt(s, i)
  {
    if i + 4 <= |s| {
      assert s[i..][0..4] == s[i..i + 4];
    }
  }
}
