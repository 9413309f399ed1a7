/** The clients of a service and the notifications it sends them (fbus/fbus_service.c). */
module Services {
  import opened Bytes
  import opened ParcelFormat
  import opened Parcels
  import opened Streams
  import opened Frames

  const FBUS_SERVICE_MAX_CLIENTS := 16

  datatype ConnectRet = Connected | OutOfSpace | Refused

  /** What a client is told about who caused a notification. */
  function TriggerFor(triggerId: int, fd: int): int32 {
    if triggerId <= 0 then FBUS_TRIGGER_BY_SERVICE
    else if triggerId == fd then FBUS_TRIGGER_BY_SELF
    else FBUS_TRIGGER_BY_OTHER
  }

  /** A negative target means every client. */
  predicate Targeted(targetId: int, fd: int) {
    fd == targetId || targetId < 0
  }

  class Service {
    const clients: array<Stream?>

    /** Different slots hold different connections. */
    ghost predicate Valid()
      reads clients
    {
      && clients.Length == FBUS_SERVICE_MAX_CLIENTS
      && forall i, j :: 0 <= i < j < clients.Length && clients[i] != null && clients[j] != null ==>
           clients[i].fd != clients[j].fd && clients[i].outgoing != clients[j].outgoing
    }

    constructor ()
      ensures Valid() && fresh(clients) && forall i :: 0 <= i < clients.Length ==> clients[i] == null
    {
      clients := new Stream?[FBUS_SERVICE_MAX_CLIENTS](_ => null);
    }

    ghost predicate Connects(fd: int)
      reads clients
    {
      exists i :: 0 <= i < clients.Length && clients[i] != null && clients[i].fd == fd
    }

    /** fbus_service_on_client_connect; `accepted` is the verdict of the service's own callback. */
    method OnClientConnect(client: Stream, accepted: bool) returns (ret: ConnectRet)
      requires Valid() && !Connects(client.fd)
      requires forall i :: 0 <= i < clients.Length && clients[i] != null ==> clients[i].outgoing != client.outgoing
      modifies clients
      ensures Valid()
      ensures ret == Refused <==> !accepted
      ensures ret == OutOfSpace <==> accepted && null !in old(clients[..])
      ensures ret == Connected ==>
                exists k :: 0 <= k < clients.Length && clients[..] == old(clients[..])[k := client]
                         && old(clients[k]) == null && null !in old(clients[..k])
      ensures ret != Connected ==> clients[..] == old(clients[..])
    {
      if !accepted {
        return Refused;
      }
      for i := 0 to FBUS_SERVICE_MAX_CLIENTS
        invariant clients[..] == old(clients[..]) && null !in clients[..i]
      {
        if clients[i] == null {
          clients[i] := client;
          assert clients[..] == old(clients[..])[i := client];
          return Connected;
        }
      }
      ret := OutOfSpace;
    }

    /** fbus_service_on_client_disconnect; `answer` is what the service's own callback returns. */
    method OnClientDisconnect(clientId: int, answer: int32) returns (ret: int32)
      requires Valid()
      modifies clients
      ensures Valid() && !Connects(clientId) && ret == answer
      ensures forall i :: 0 <= i < clients.Length ==>
                clients[i] == if old(clients[i]) != null && old(clients[i]).fd == clientId then null else old(clients[i])
    {
      for i := 0 to FBUS_SERVICE_MAX_CLIENTS
        invariant clients[..] == old(clients[..])
        invariant forall k :: 0 <= k < i && clients[k] != null ==> clients[k].fd != clientId
      {
        if clients[i] != null && clients[i].fd == clientId {
          clients[i] := null;
          break;
        }
      }
      ret := answer;
    }

    ghost function Pipes(): set<Pipe>
      reads clients
    {
      set i | 0 <= i < clients.Length && clients[i] != null :: clients[i].outgoing
    }

    /** The bytes client `s` should get. */
    function FrameFor(targetId: int, triggerId: int, s: Stream, content: seq<byte>): seq<byte>
      requires SizeOk(content)
      reads s.outgoing
    {
      if Targeted(targetId, s.fd) && !s.outgoing.closed
      then PushFrame(Push(TriggerFor(triggerId, s.fd), content)) else []
    }

    /** What the last write to a targeted client returns: the size of the contents, or 0 on a closed connection. */
    static function LastRet(clients: seq<Stream?>, targetId: int, size: nat): int
      reads (set s: Stream | s in clients :: s.outgoing)`closed
    {
      if clients == [] then RET_FAIL
      else
        var n := |clients| - 1;
        var s := clients[n];
        if s != null && Targeted(targetId, s.fd) then if s.outgoing.closed then 0 else size
        else LastRet(clients[..n], targetId, size)
    }

    /** The last targeted client decides; there is a failure exactly if nobody is targeted. */
    static lemma {:induction false} LastOneTells(clients: seq<Stream?>, targetId: int, size: nat, k: nat)
      requires k < |clients| && clients[k] != null && (clients[k].fd == targetId || targetId < 0)
      requires forall j :: k < j < |clients| && clients[j] != null ==> clients[j].fd != targetId && targetId >= 0
      ensures LastRet(clients, targetId, size) == if clients[k].outgoing.closed then 0 else size
      decreases |clients|
    {
      var n := |clients| - 1;
      if k < n {
        LastOneTells(clients[..n], targetId, size, k);
      }
    }

    static lemma {:induction false} NobodyTells(clients: seq<Stream?>, targetId: int, size: nat)
      requires forall j :: 0 <= j < |clients| && clients[j] != null ==> clients[j].fd != targetId && targetId >= 0
      ensures LastRet(clients, targetId, size) == RET_FAIL
      decreases |clients|
    {
      if clients != [] {
        NobodyTells(clients[..|clients| - 1], targetId, size);
      }
    }

    /** What its receiver makes of it: one notification, and who caused it, in front of what follows. */
    lemma ClientHears(targetId: int, triggerId: int, s: Stream, content: seq<byte>, rest: seq<byte>)
      requires SizeOk(content)
      ensures var got, next := Receive(FrameFor(targetId, triggerId, s, content) + rest), Receive(rest);
              if s.outgoing.closed || (targetId >= 0 && s.fd != targetId) then got == next
              else && got.ending == next.ending && |got.pushes| == |next.pushes| + 1
                   && got.pushes[1..] == next.pushes && got.pushes[0].payload == content
                   && (got.pushes[0].trigger == FBUS_TRIGGER_BY_SELF <==> 0 < triggerId == s.fd)
                   && (got.pushes[0].trigger == FBUS_TRIGGER_BY_OTHER <==> 0 < triggerId != s.fd)
                   && (got.pushes[0].trigger == FBUS_TRIGGER_BY_SERVICE <==> triggerId <= 0)
    {
      hide PushFrame, FrontFrame;
      if s.outgoing.closed || (targetId >= 0 && s.fd != targetId) {
        assert FrameFor(targetId, triggerId, s, content) + rest == rest;
      } else {
        FrontPush(Push(TriggerFor(triggerId, s.fd), content), rest);
      }
    }

    /** Sends one frame; nothing of it goes out on a closed connection. */
    static method SendPush(stream: Stream, trigger: int32, notify: Parcel) returns (ret: int)
      requires notify.Valid() && SizeOk(notify.Content())
      modifies stream.outgoing`bytes
      ensures stream.outgoing.bytes == old(stream.outgoing.bytes)
                + if stream.outgoing.closed then [] else PushFrame(Push(trigger, notify.Content()))
      ensures ret == if stream.outgoing.closed then 0 else notify.size
    {
      hide IntBytes;
      ghost var before, content := stream.outgoing.bytes, notify.Content();
      var _ := stream.WriteN(IntBytes(FBUS_RESP_PUSH));
      var _ := stream.WriteN(IntBytes(trigger));
      var size: int32 := notify.size;
      var _ := stream.WriteN(IntBytes(size));
      ret := stream.WriteN(notify.data[..notify.size]);
      assert before + IntBytes(FBUS_RESP_PUSH) + IntBytes(trigger) + IntBytes(|content|) + content
          == before + PushFrame(Push(trigger, content));
    }

    /** fbus_service_notify: every targeted client gets exactly one frame, the others nothing. */
    method Notify(targetId: int, triggerId: int, notify: Parcel) returns (ret: int)
      requires Valid() && notify.Valid() && SizeOk(notify.Content())
      modifies Pipes()
      ensures Valid() && clients[..] == old(clients[..])
      ensures forall i :: 0 <= i < clients.Length && clients[i] != null ==>
                clients[i].outgoing.bytes == old(clients[i].outgoing.bytes)
                                             + FrameFor(targetId, triggerId, clients[i], notify.Content())
      ensures ret == LastRet(clients[..], targetId, notify.size)
    {
      hide PushFrame;
      ret := RET_FAIL;
      for i := 0 to FBUS_SERVICE_MAX_CLIENTS
        invariant forall k :: 0 <= k < i && clients[k] != null ==>
                    clients[k].outgoing.bytes == old(clients[k].outgoing.bytes)
                                                 + FrameFor(targetId, triggerId, clients[k], notify.Content())
        invariant forall k :: i <= k < clients.Length && clients[k] != null ==>
                    clients[k].outgoing.bytes == old(clients[k].outgoing.bytes)
        invariant forall k :: 0 <= k < clients.Length && clients[k] != null ==>
                    clients[k].outgoing.closed == old(clients[k].outgoing.closed)
        invariant ret == LastRet(clients[..i], targetId, notify.size)
      {
        assert clients[..i + 1][..i] == clients[..i];
        var stream := clients[i];
        if stream != null && Targeted(targetId, stream.fd) {
          ret := SendPush(stream, TriggerFor(triggerId, stream.fd), notify);
        }
      }
      assert clients[..FBUS_SERVICE_MAX_CLIENTS] == clients[..];
    }
  }
}
