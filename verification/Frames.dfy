/** The frames a service sends to its clients (fbus/fbus_typedef.h, fbus/fbus_proxy.c). */
module Frames {
  import opened Bytes
  import opened ParcelFormat

  const FBUS_RESP_NORMAL: int32 := 0
  const FBUS_RESP_PUSH: int32 := 1

  const FBUS_TRIGGER_BY_SELF: int32 := 1
  const FBUS_TRIGGER_BY_OTHER: int32 := 2
  const FBUS_TRIGGER_BY_SERVICE: int32 := 3

  /** A notification: what triggered it, and a parcel's content. */
  datatype Push = Push(trigger: int32, payload: seq<byte>)

  /** Sizes travel as ints. */
  predicate SizeOk(payload: seq<byte>) {
    |payload| < 0x8000_0000
  }

  /** A payload behind its size. */
  function Sized(payload: seq<byte>): seq<byte>
    requires SizeOk(payload)
  {
    IntBytes(|payload|) + payload
  }

  function NormalFrame(payload: seq<byte>): seq<byte>
    requires SizeOk(payload)
  {
    IntBytes(FBUS_RESP_NORMAL) + IntBytes(|payload|) + payload
  }

  function PushFrame(p: Push): seq<byte>
    requires SizeOk(p.payload)
  {
    IntBytes(FBUS_RESP_PUSH) + IntBytes(p.trigger) + IntBytes(|p.payload|) + p.payload
  }

  function PushFrames(ps: seq<Push>): seq<byte>
    requires forall i :: 0 <= i < |ps| ==> SizeOk(ps[i].payload)
  {
    if ps == [] then [] else PushFrame(ps[0]) + PushFrames(ps[1..])
  }

  // ---------------------------------------------------------------- receiving

  /** How fbus_proxy_recv_response ends. */
  datatype Ending =
    | Received(payload: seq<byte>, rest: seq<byte>)   // the answer, and what is left unread
    | CutOff                                          // the stream ended inside a frame
    | NegativeSize                                    // a size field that no sender writes

  /** The notifications delivered on the way, and the ending. */
  datatype Reception = Reception(pushes: seq<Push>, ending: Ending)

  /** One frame: its type, its trigger if it is a notification, and its payload. */
  datatype Frame =
    | Frame(kind: int32, trigger: int32, payload: seq<byte>, length: nat)
    | Short
    | Negative

  /** The frame at the front of the stream. */
  function FrontFrame(s: seq<byte>): (f: Frame)
    ensures f.Frame? ==> 8 <= f.length <= |s|
  {
    if |s| < 4 then Short
    else
      var kind := IntAt(s, 0);
      var h := if kind == FBUS_RESP_PUSH then 8 else 4;
      if |s| < h + 4 then Short
      else
        var size := IntAt(s, h);
        if size < 0 then Negative
        else if |s| < h + 4 + size then Short
        else Frame(kind, if kind == FBUS_RESP_PUSH then IntAt(s, 4) else 0, s[h + 4..h + 4 + size], h + 4 + size)
  }

  /** What fbus_proxy_recv_response makes of a stream; frames of unknown type are skipped. */
  function Receive(s: seq<byte>): Reception
    decreases |s|
  {
    match FrontFrame(s)
    case Short => Reception([], CutOff)
    case Negative => Reception([], NegativeSize)
    case Frame(kind, trigger, payload, length) =>
      if kind == FBUS_RESP_NORMAL then Reception([], Received(payload, s[length..]))
      else
        var r := Receive(s[length..]);
        if kind == FBUS_RESP_PUSH then Reception([Push(trigger, payload)] + r.pushes, r.ending) else r
  }

  lemma IntInFront(v: int32, rest: seq<byte>)
    ensures IntAt(IntBytes(v) + rest, 0) == v
  {
    hide IntBytes, IntAt;
    var s := IntBytes(v) + rest;
    assert forall k :: 0 <= k < 4 ==> s[0 + k] == IntBytes(v)[k];
    IntRoundTrip(s, 0, v);
  }

  lemma IntBehind(pre: seq<byte>, v: int32, rest: seq<byte>)
    ensures IntAt(pre + IntBytes(v) + rest, |pre|) == v
  {
    hide IntBytes, IntAt;
    var s := pre + IntBytes(v) + rest;
    forall k | 0 <= k < 4
      ensures s[|pre| + k] == IntBytes(v)[k]
    {
    }
    IntRoundTrip(s, |pre|, v);
  }

  lemma Cut(head: seq<byte>, payload: seq<byte>, rest: seq<byte>)
    ensures var s := head + payload + rest;
            s[|head|..|head| + |payload|] == payload && s[|head| + |payload|..] == rest
  {
  }

  lemma FrontNormal(payload: seq<byte>, rest: seq<byte>)
    requires SizeOk(payload)
    ensures FrontFrame(NormalFrame(payload) + rest)
         == Frame(FBUS_RESP_NORMAL, 0, payload, |NormalFrame(payload)|)
    ensures (NormalFrame(payload) + rest)[|NormalFrame(payload)|..] == rest
  {
    hide IntAt, IntBytes;
    var kind, size := IntBytes(FBUS_RESP_NORMAL), IntBytes(|payload|);
    var s := NormalFrame(payload) + rest;
    assert IntAt(s, 0) == FBUS_RESP_NORMAL by {
      assert s == kind + (size + payload + rest);
      IntInFront(FBUS_RESP_NORMAL, size + payload + rest);
    }
    assert IntAt(s, 4) == |payload| by {
      assert s == kind + size + (payload + rest);
      IntBehind(kind, |payload|, payload + rest);
    }
    Cut(kind + size, payload, rest);
  }

  lemma FrontPush(p: Push, rest: seq<byte>)
    requires SizeOk(p.payload)
    ensures FrontFrame(PushFrame(p) + rest) == Frame(FBUS_RESP_PUSH, p.trigger, p.payload, |PushFrame(p)|)
    ensures (PushFrame(p) + rest)[|PushFrame(p)|..] == rest
  {
    hide IntAt, IntBytes;
    var kind, trigger, size := IntBytes(FBUS_RESP_PUSH), IntBytes(p.trigger), IntBytes(|p.payload|);
    var s := PushFrame(p) + rest;
    assert IntAt(s, 0) == FBUS_RESP_PUSH by {
      assert s == kind + (trigger + size + p.payload + rest);
      IntInFront(FBUS_RESP_PUSH, trigger + size + p.payload + rest);
    }
    assert IntAt(s, 4) == p.trigger by {
      assert s == kind + trigger + (size + p.payload + rest);
      IntBehind(kind, p.trigger, size + p.payload + rest);
    }
    assert IntAt(s, 8) == |p.payload| by {
      assert s == (kind + trigger) + size + (p.payload + rest);
      IntBehind(kind + trigger, |p.payload|, p.payload + rest);
    }
    Cut(kind + trigger + size, p.payload, rest);
  }

  /** A frame of any other type is read over. */
  lemma UnknownIsSkipped(kind: int32, payload: seq<byte>, rest: seq<byte>)
    requires SizeOk(payload) && kind != FBUS_RESP_NORMAL && kind != FBUS_RESP_PUSH
    ensures Receive(IntBytes(kind) + Sized(payload) + rest) == Receive(rest)
  {
    hide IntAt, IntBytes;
    var size := IntBytes(|payload|);
    var s := IntBytes(kind) + Sized(payload) + rest;
    assert IntAt(s, 0) == kind by {
      assert s == IntBytes(kind) + (size + payload + rest);
      IntInFront(kind, size + payload + rest);
    }
    assert IntAt(s, 4) == |payload| by {
      assert s == IntBytes(kind) + size + (payload + rest);
      IntBehind(IntBytes(kind), |payload|, payload + rest);
    }
    Cut(IntBytes(kind) + size, payload, rest);
    assert s == IntBytes(kind) + size + payload + rest;
  }

  /**
   Frame synchronisation: any number of notifications, then an answer, then anything at all.
   Every notification is delivered once and in order, and exactly these frames are consumed.
   */
  lemma {:induction false} ReceiveSynchronises(ps: seq<Push>, payload: seq<byte>, rest: seq<byte>)
    requires SizeOk(payload) && forall i :: 0 <= i < |ps| ==> SizeOk(ps[i].payload)
    ensures Receive(PushFrames(ps) + NormalFrame(payload) + rest) == Reception(ps, Received(payload, rest))
    decreases |ps|
  {
    hide FrontFrame, NormalFrame, PushFrame;
    if ps == [] {
      assert PushFrames(ps) + NormalFrame(payload) + rest == NormalFrame(payload) + rest;
      FrontNormal(payload, rest);
    } else {
      var tail := PushFrames(ps[1..]) + NormalFrame(payload) + rest;
      assert PushFrames(ps) + NormalFrame(payload) + rest == PushFrame(ps[0]) + tail;
      FrontPush(ps[0], tail);
      ReceiveSynchronises(ps[1..], payload, rest);
      assert [ps[0]] + ps[1..] == ps;
    }
  }

  lemma {:induction false} PushFramesAppend(a: seq<Push>, b: seq<Push>)
    requires forall i :: 0 <= i < |a| ==> SizeOk(a[i].payload)
    requires forall i :: 0 <= i < |b| ==> SizeOk(b[i].payload)
    ensures PushFrames(a + b) == PushFrames(a) + PushFrames(b)
    decreases |a|
  {
    hide PushFrame;
    if a == [] {
      assert a + b == b;
    } else {
      PushFramesAppend(a[1..], b);
      assert (a + b)[1..] == a[1..] + b;
    }
  }

  /** If the stream ends behind some notifications, they are still delivered. */
  lemma {:induction false} ReceiveCutOff(ps: seq<Push>)
    requires forall i :: 0 <= i < |ps| ==> SizeOk(ps[i].payload)
    ensures Receive(PushFrames(ps)) == Reception(ps, CutOff)
    decreases |ps|
  {
    hide PushFrame;
    if ps != [] {
      assert PushFrames(ps) == PushFrame(ps[0]) + PushFrames(ps[1..]);
      FrontPush(ps[0], PushFrames(ps[1..]));
      hide FrontFrame;
      ReceiveCutOff(ps[1..]);
      assert [ps[0]] + ps[1..] == ps;
    }
  }
}
