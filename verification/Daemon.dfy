/**
 The service manager daemon: the handlers of fbus/fbus_service_manager_daemon.c and the dispatch
 of fbus/fbus_source_service.c.  Processes are only started and stopped in a log.
 */
module Daemons {
  import opened Bytes
  import opened ParcelFormat
  import opened Parcels
  import opened ServiceTable
  import opened ServiceCalls
  import opened Streams
  import opened Frames
  import opened Wire

  datatype DispatchRet = DispatchOk | DispatchFail | DispatchRemove

  /** The bytes of an answer. */
  ghost predicate Answers(content: seq<byte>, a: Answer) {
    && SizeOk(content) && (a.info.Some? ==> RecordOk(a.info.value))
    && Holds(content, 0, |content|, Reply(a))
  }

  class Daemon {
    const infos: ServiceInfos
    const parcel: Parcel
    /** The processes started and stopped so far. */
    var effects: seq<Effect>
    /** Children that have ended and that waitpid will report. */
    var ended: seq<int32>

    ghost predicate Valid()
      reads this, infos, parcel
    {
      infos.Valid() && parcel.Valid()
    }

    ghost function Table(): (t: seq<ServiceInfo>)
      requires Valid()
      reads this, infos, infos.infos, parcel
      ensures TableOk(t)
    {
      infos.Table()
    }

    constructor (infos: ServiceInfos)
      requires infos.Valid()
      ensures this.infos == infos && Valid() && effects == [] && ended == []
      ensures fresh(parcel) && fresh(parcel.data)
    {
      this.infos := infos;
      parcel := new Parcel(256);
      effects, ended := [], [];
    }

    /** The state and the answer are those of `o`. */
    ghost predicate Reached(before: seq<Effect>, o: Outcome)
      reads this, infos, infos.infos
    {
      infos.Valid() && infos.Table() == o.table && effects == before + o.effects
    }

    // -------------------------------------------------------------- handlers

    method HandleGet(index: int32) returns (ret: int32, info: Option<Record>)
      requires Valid()
      modifies this`effects, infos.infos
      ensures Reached(old(effects), Direct(old(Table()), GetCall(index)))
      ensures Answer(ret, None, info) == Direct(old(Table()), GetCall(index)).answer
    {
      var found := infos.Get(index);
      if found.None? {
        return RET_FAIL, None;
      }
      ret, info := RET_OK, Some(infos.infos[found.value]);
    }

    method HandleStop(name: seq<byte>) returns (ret: int32)
      requires Valid()
      modifies this`effects, infos.infos
      ensures Reached(old(effects), Stop(old(Table()), name))
      ensures Answer(ret, None, None) == Stop(old(Table()), name).answer
    {
      hide Find, CString;
      var found := infos.FindIndex(name);
      if found.None? {
        return RET_NOT_FOUND;
      }
      var info := infos.infos[found.value];
      if info.status == FBUS_SERVICE_STARTED {
        effects := effects + [Terminate(info.pid)];
        infos.Put(found.value, info.(status := FBUS_SERVICE_STOPING));
      }
      ret := RET_OK;
    }

    method HandleStart(name: seq<byte>) returns (ret: int32)
      requires Valid()
      modifies this`effects, infos.infos
      ensures Reached(old(effects), Start(old(Table()), name))
      ensures Answer(ret, None, None) == Start(old(Table()), name).answer
    {
      hide Find, CString;
      var found := infos.FindIndex(name);
      if found.None? {
        return RET_NOT_FOUND;
      }
      var info := infos.infos[found.value];
      if info.status == FBUS_SERVICE_STOPED {
        effects := effects + [Launch(CString(info.exec))];
        infos.Put(found.value, info.(status := FBUS_SERVICE_STARTING));
      }
      ret := RET_OK;
    }

    method HandleQuery(name: seq<byte>) returns (ret: int32, info: Option<Record>)
      requires Valid()
      modifies this`effects, infos.infos
      ensures Reached(old(effects), Direct(old(Table()), QueryCall(name)))
      ensures Answer(ret, None, info) == Direct(old(Table()), QueryCall(name)).answer
    {
      hide Find, CString;
      var found := infos.FindIndex(name);
      if found.None? {
        return RET_NOT_FOUND, None;
      }
      ret, info := RET_OK, Some(infos.infos[found.value]);
    }

    method HandleRegister(name: seq<byte>, host: seq<byte>, pid: int32) returns (ret: int32, info: Option<Record>)
      requires Valid()
      modifies this`effects, infos.infos
      ensures Reached(old(effects), Register(old(Table()), name, host, pid))
      ensures Answer(ret, None, info) == Register(old(Table()), name, host, pid).answer
    {
      hide Find, CString, StrNCpy;
      var found := infos.FindIndex(name);
      if found.None? {
        return RET_NOT_FOUND, None;
      }
      var r := infos.infos[found.value];
      r := r.(pid := pid);
      r := r.(host := StrNCpy(r.host, host, NAME_SIZE - 1));
      r := r.(status := FBUS_SERVICE_STARTED);
      infos.Put(found.value, r);
      ret, info := RET_OK, Some(r);
    }

    method HandleUnregister(name: seq<byte>, host: seq<byte>, pid: int32) returns (ret: int32)
      requires Valid()
      modifies this`effects, infos.infos
      ensures Reached(old(effects), Unregister(old(Table()), name, host, pid))
      ensures Answer(ret, None, None) == Unregister(old(Table()), name, host, pid).answer
    {
      hide Find, CString;
      var found := infos.FindIndex(name);
      if found.None? {
        return RET_NOT_FOUND;
      }
      var info := infos.infos[found.value];
      if !(info.pid == pid && CString(info.host) == host) {
        return RET_FAIL;
      }
      infos.Put(found.value, info.(status := FBUS_SERVICE_STOPED));
      ret := RET_OK;
    }

    /** The search of check_children for the service of one process that ended. */
    method ChildEnded(pid: int32)
      requires Valid()
      modifies this`effects, infos.infos
      ensures Valid() && Table() == Reap(old(Table()), pid).0 && effects == old(effects) + Reap(old(Table()), pid).1
    {
      hide CString;
      var i, nr := 0, infos.size;
      while i < nr
        invariant i <= nr == infos.size && Table() == old(Table()) && effects == old(effects)
        invariant FindPid(Table(), pid, 0) == FindPid(Table(), pid, i)
      {
        var info := infos.infos[i];
        if info.pid == pid {
          if info.startType == FBUS_SERVICE_RUN_FOREVER {
            effects := effects + [Launch(CString(info.exec))];
            infos.Put(i, info.(status := FBUS_SERVICE_STARTING));
          } else {
            infos.Put(i, info.(status := FBUS_SERVICE_STOPED));
          }
          return;
        }
        i := i + 1;
      }
    }

    /** check_children */
    method CheckChildren()
      requires Valid()
      modifies this, infos.infos
      ensures Valid() && ended == [] && Table() == ReapAll(old(Table()), old(ended)).0
      ensures effects == old(effects) + ReapAll(old(Table()), old(ended)).1
    {
      hide Reap;
      while ended != []
        invariant Valid()
        invariant ReapAll(Table(), ended).0 == ReapAll(old(Table()), old(ended)).0
        invariant effects + ReapAll(Table(), ended).1 == old(effects) + ReapAll(old(Table()), old(ended)).1
        decreases |ended|
      {
        var pid := ended[0];
        ended := ended[1..];
        ChildEnded(pid);
      }
    }

    // -------------------------------------------------------------- requests

    /** The answer goes into the parcel the request came in. */
    method Respond(ret: int32, nr: Option<int32>, info: Option<Record>)
      requires Valid() && (info.Some? ==> RecordOk(info.value))
      modifies parcel, parcel.data
      ensures parcel.Valid() && (parcel.data == old(parcel.data) || fresh(parcel.data))
      ensures parcel.cursor == parcel.size && parcel.Written(Reply(Answer(ret, nr, info)))
    {
      hide Holds, Pack;
      parcel.Reset();
      parcel.WriteInt(ret, []);
      ghost var vs := [IntV(ret)];
      assert [] + vs == vs;
      if nr.Some? {
        parcel.WriteInt(nr.value, vs);
        vs := vs + [IntV(nr.value)];
      }
      if info.Some? {
        parcel.WriteData(Pack(info.value), vs);
        vs := vs + [DataV(Pack(info.value))];
      }
      assert vs == Reply(Answer(ret, nr, info));
    }

    /** The switch of handle_request. */
    method Switch(ghost call: Call)
      requires Valid() && CallOk(call) && parcel.Unread(Marshal(call))
      modifies this`effects, infos.infos, parcel, parcel.data
      ensures Valid() && (parcel.data == old(parcel.data) || fresh(parcel.data))
      ensures Reached(old(effects), Direct(old(Table()), call))
      ensures var a := Direct(old(Table()), call).answer;
              && (a.info.Some? ==> RecordOk(a.info.value))
              && parcel.cursor == parcel.size && parcel.Written(Reply(a))
    {
      hide Holds, IntAt, Direct, Reply, CallOk, Stop, Start, Register, Unregister;
      ghost var o, before := Direct(Table(), call), Table();
      DirectShape(before, call);
      assert Marshal(call)[1..] == Arguments(call);
      var code := parcel.GetInt(Marshal(call));
      ghost var args := Arguments(call);
      if code == FBUS_SERVICE_MANAGER_REQ_GET {
        var index := parcel.GetInt(args);
        var ret, info := HandleGet(index);
        Respond(ret, None, info);
      } else if code == FBUS_SERVICE_MANAGER_REQ_GET_NR {
        var nr: int32 := infos.size;
        Respond(RET_OK, Some(nr), None);
      } else if code == FBUS_SERVICE_MANAGER_REQ_STOP {
        var name := parcel.GetString(args);
        var ret := HandleStop(name.value);
        Respond(ret, None, None);
      } else if code == FBUS_SERVICE_MANAGER_REQ_START {
        var name := parcel.GetString(args);
        var ret := HandleStart(name.value);
        Respond(ret, None, None);
      } else if code == FBUS_SERVICE_MANAGER_REQ_QUERY {
        var name := parcel.GetString(args);
        var ret, info := HandleQuery(name.value);
        Respond(ret, None, info);
      } else if code == FBUS_SERVICE_MANAGER_REQ_REGISTER {
        var name := parcel.GetString(args);
        var host := parcel.GetString(args[1..]);
        var pid := parcel.GetInt(args[2..]);
        var ret, info := HandleRegister(name.value, host.value, pid);
        Respond(ret, None, info);
      } else if code == FBUS_SERVICE_MANAGER_REQ_UNREGISTER {
        var name := parcel.GetString(args);
        var host := parcel.GetString(args[1..]);
        var pid := parcel.GetInt(args[2..]);
        var ret := HandleUnregister(name.value, host.value, pid);
        Respond(ret, None, None);
      }
    }

    /** handle_request */
    method HandleRequest(ghost call: Call)
      requires Valid() && CallOk(call) && parcel.Unread(Marshal(call))
      modifies this, infos.infos, parcel, parcel.data
      ensures Valid() && (parcel.data == old(parcel.data) || fresh(parcel.data)) && ended == []
      ensures Reached(old(effects), Served(old(Table()), call, old(ended)))
      ensures var a := Served(old(Table()), call, old(ended)).answer;
              && (a.info.Some? ==> RecordOk(a.info.value))
              && parcel.cursor == parcel.size && parcel.Written(Reply(a))
    {
      hide Holds, IntAt, Direct, Reply, CallOk, Reap;
      Switch(call);
      CheckChildren();
    }

    /** fbus_source_service_dispatch, for a stream that ends or has one of the client's requests in front. */
    method Dispatch(stream: Stream, ghost call: Call, ghost request: seq<byte>, ghost rest: seq<byte>)
      returns (ret: DispatchRet)
      requires Valid() && CallOk(call) && stream.incoming != stream.outgoing
      requires |stream.incoming.bytes| < 4 || IntAt(stream.incoming.bytes, 0) <= 0 || (
                 && SizeOk(request) && Holds(request, 0, |request|, Marshal(call))
                 && stream.incoming.bytes == Sized(request) + rest)
      modifies this, infos.infos, parcel, parcel.data, stream.incoming`bytes, stream.outgoing`bytes
      ensures Valid() && (parcel.data == old(parcel.data) || fresh(parcel.data))
      ensures ret == DispatchRemove <==> |old(stream.incoming.bytes)| < 4 || IntAt(old(stream.incoming.bytes), 0) <= 0
      ensures ret == DispatchRemove ==>
                && Table() == old(Table()) && effects == old(effects) && ended == old(ended)
                && stream.outgoing.bytes == old(stream.outgoing.bytes)
      ensures ret != DispatchRemove ==>
                && Reached(old(effects), Served(old(Table()), call, old(ended)))
                && ended == [] && stream.incoming.bytes == rest
      ensures ret == DispatchOk ==>
                var a := Served(old(Table()), call, old(ended)).answer;
                && Answers(parcel.Content(), a)
                && stream.outgoing.bytes == old(stream.outgoing.bytes) + NormalFrame(parcel.Content())
      ensures ret == DispatchFail <==> ret != DispatchRemove && stream.outgoing.closed
      ensures ret == DispatchFail ==> stream.outgoing.bytes == old(stream.outgoing.bytes)
    {
      hide Holds, IntAt, IntBytes, Served, Reply, CallOk, Marshal, Reap, Pack;
      ghost var out, s := stream.outgoing.bytes, stream.incoming.bytes;
      parcel.Reset();
      var n := ReadInt(stream);
      if n.None? || n.value <= 0 {
        return DispatchRemove;
      }
      RequestInFront(call, request, rest);
      assert s == Sized(request) + rest;
      var _ := Fill(parcel, stream, n.value);
      HandleRequest(call);
      var sent := SendAnswer(stream, Served(old(Table()), call, old(ended)).answer);
      ret := if sent then DispatchOk else DispatchFail;
    }

    method SendAnswer(stream: Stream, ghost a: Answer) returns (sent: bool)
      requires Valid() && (a.info.Some? ==> RecordOk(a.info.value))
      requires parcel.cursor == parcel.size && parcel.Written(Reply(a))
      modifies stream.outgoing`bytes
      ensures sent <==> !stream.outgoing.closed
      ensures !sent ==> stream.outgoing.bytes == old(stream.outgoing.bytes)
      ensures sent ==> Answers(parcel.Content(), a)
      ensures sent ==> stream.outgoing.bytes == old(stream.outgoing.bytes) + NormalFrame(parcel.Content())
    {
      hide Holds, IntBytes, Reply, Pack;
      ghost var out := stream.outgoing.bytes;
      ReplySize(parcel.Content(), parcel.size, a);
      var ok := stream.WriteN(IntBytes(FBUS_RESP_NORMAL));
      assert out + IntBytes(FBUS_RESP_NORMAL) + (IntBytes(parcel.size) + parcel.Content())
          == out + NormalFrame(parcel.Content());
      sent := SendSized(parcel, stream);
    }
  }

  /** The size in front of a request, and what lies behind it. */
  lemma RequestInFront(call: Call, request: seq<byte>, rest: seq<byte>)
    requires CallOk(call) && Holds(request, 0, |request|, Marshal(call))
    ensures 0 < |request| && SizeOk(request)
    ensures var s := Sized(request) + rest;
            && IntAt(s, 0) == |request| && s[4..][..|request|] == request && s[4..][|request|..] == rest
  {
    hide Holds, IntBytes, IntAt;
    HoldsSize(request, 0, |request|, Marshal(call));
    hide Marshal, CallOk;
    assert Sized(request) + rest == IntBytes(|request|) + (request + rest);
    IntInFront(|request|, request + rest);
    Cut(IntBytes(|request|), request, rest);
  }

  lemma ReplySize(content: seq<byte>, n: nat, a: Answer)
    requires a.info.Some? ==> RecordOk(a.info.value)
    requires Holds(content, 0, n, Reply(a)) && n == |content|
    ensures SizeOk(content) && n < 0x8000_0000
  {
    hide Holds, Pack;
    HoldsSize(content, 0, n, Reply(a));
    SmallSizes(Reply(a));
  }

  lemma {:induction false} SmallSizes(vs: seq<Value>)
    requires forall k :: 0 <= k < |vs| ==> Size(vs[k]) <= 400
    ensures TotalSize(vs) <= 400 * |vs|
  {
    if vs != [] {
      SmallSizes(vs[1..]);
    }
  }

  /** What the switch needs to know of the handlers. */
  lemma DirectShape(t: seq<ServiceInfo>, call: Call)
    requires TableOk(t)
    ensures var a := Direct(t, call).answer; a.info.Some? ==> RecordOk(a.info.value)
    ensures match call
            case GetCall(i) => true
            case GetNrCall => Direct(t, call) == Outcome(t, [], Answer(RET_OK, Some(|t|), None))
            case StopCall(name) => Direct(t, call) == Stop(t, name)
            case StartCall(name) => Direct(t, call) == Start(t, name)
            case QueryCall(name) => true
            case RegisterCall(name, host, pid) => Direct(t, call) == Register(t, name, host, pid)
            case UnregisterCall(name, host, pid) => Direct(t, call) == Unregister(t, name, host, pid)
  {
    hide Find, StrNCpy;
  }
}
