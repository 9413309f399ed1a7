/**
 Calling the service manager from another process: the client functions of
 fbus/fbus_service_manager.c over a proxy, with the daemon at the other end of the connection.
 */
module RemoteCalls {
  import opened Bytes
  import opened ParcelFormat
  import opened Parcels
  import opened ServiceTable
  import opened ServiceCalls
  import opened Streams
  import opened Frames
  import opened Daemons
  import opened Proxies

  /** Everything a call can be seen to change. */
  datatype World = World(
    table: seq<ServiceInfo>,
    effects: seq<Effect>,
    ended: seq<int32>,
    delivered: seq<Push>,
    inbox: seq<byte>,
    outbox: seq<byte>,
    busy: bool,
    inClosed: bool,
    outClosed: bool,
    listening: bool)

  predicate PushesOk(ps: seq<Push>) {
    forall i :: 0 <= i < |ps| ==> SizeOk(ps[i].payload)
  }

  /** The notifications in `early` arrived before the call. */
  predicate Arrived(w: World, early: seq<Push>) {
    PushesOk(early) && w.inbox == PushFrames(early) && w.outbox == []
  }

  /** A client, the daemon, and the connection between them. */
  class Session {
    const proxy: Proxy
    const daemon: Daemon
    const daemonEnd: Stream
    /** What the daemon notifies this client of before it gets to the request. */
    var coming: seq<Push>

    constructor (proxy: Proxy, daemon: Daemon, daemonEnd: Stream, coming: seq<Push>)
      ensures this.proxy == proxy && this.daemon == daemon && this.daemonEnd == daemonEnd && this.coming == coming
    {
      this.proxy, this.daemon, this.daemonEnd, this.coming := proxy, daemon, daemonEnd, coming;
    }

    ghost function Footprint(): (f: set<object?>)
      reads this, proxy, proxy.parcel, daemon, daemon.parcel, daemon.infos
      ensures this in f && proxy in f && Own() <= f
    {
      {this, proxy, proxy.stream.incoming, proxy.stream.outgoing,
       daemon, daemon.parcel, daemon.parcel.data, daemon.infos.infos}
      + Own()
    }

    /** The client's own buffer. */
    ghost function Own(): set<object?>
      reads proxy, proxy.parcel
    {
      if proxy.parcel == null then {} else {proxy.parcel, proxy.parcel.data}
    }

    ghost predicate Valid()
      reads this, proxy, proxy.parcel, daemon, daemon.parcel, daemon.infos
    {
      && proxy.Valid() && daemon.Valid() && PushesOk(coming)
      && proxy.stream.outgoing == daemonEnd.incoming && proxy.stream.incoming == daemonEnd.outgoing
      && proxy.stream.outgoing != proxy.stream.incoming
      && (proxy.parcel != null ==> proxy.parcel != daemon.parcel && proxy.parcel.data != daemon.parcel.data)
    }

    ghost function Now(): (w: World)
      requires Valid()
      reads this, proxy, proxy.parcel, proxy.stream.incoming, proxy.stream.outgoing
      reads daemon, daemon.parcel, daemon.infos, daemon.infos.infos
      ensures TableOk(w.table)
    {
      World(daemon.Table(), daemon.effects, daemon.ended, proxy.delivered,
            proxy.stream.incoming.bytes, proxy.stream.outgoing.bytes, proxy.busy,
            proxy.stream.incoming.closed, proxy.stream.outgoing.closed, proxy.listening)
    }

    /** The notifications that reach the listener during a call. */
    ghost function Heard(early: seq<Push>): seq<Push>
      reads this`coming, proxy`listening, proxy.stream.incoming`closed
    {
      if !proxy.listening then [] else early + if proxy.stream.incoming.closed then [] else coming
    }

    /** The answer the client should get; RET_FAIL if the proxy is busy or the connection is lost. */
    static ghost function Expected(w: World, call: Call): (a: Answer)
      requires TableOk(w.table)
      ensures a.info.Some? ==> RecordOk(a.info.value) && a.nr.None?
      ensures a.ret != RET_OK ==> a.nr == None && a.info == None
      ensures a.ret == RET_OK ==> (a.nr.Some? <==> call.GetNrCall?)
      ensures a.ret == RET_OK ==> (a.info.Some? <==> call.GetCall? || call.QueryCall? || call.RegisterCall?)
    {
      AnswerShape(w.table, call, w.ended);
      if w.busy || w.outClosed || w.inClosed then Answer(RET_FAIL, None, None)
      else Served(w.table, call, w.ended).answer
    }

    /**
     What a call does: to the daemon, exactly what calling the handler directly does; every
     notification that came before the answer is delivered once and in order; and nothing is left
     on the connection.  If the proxy is busy or the way to the daemon is closed, nothing happens.
     */
    static ghost predicate After(w: World, u: World, call: Call, pushes: seq<Push>)
      requires TableOk(w.table)
    {
      if w.busy || w.outClosed then u == w
      else
        var o := Served(w.table, call, w.ended);
        && u == w.(table := o.table, effects := w.effects + o.effects, ended := [], delivered := w.delivered + pushes,
                   inbox := u.inbox, outbox := [])
        && (!w.inClosed ==> u.inbox == [])
    }

    /** While the client waits, the daemon's process runs. */
    method WhileBlocked(ghost call: Call, ghost request: seq<byte>)
      requires Valid() && CallOk(call) && SizeOk(request) && Holds(request, 0, |request|, Marshal(call))
      requires proxy.stream.outgoing.bytes == Sized(request)
      modifies daemon, daemon.infos.infos, daemon.parcel, daemon.parcel.data
      modifies proxy.stream.incoming`bytes, proxy.stream.outgoing`bytes
      ensures Valid() && (daemon.parcel.data == old(daemon.parcel.data) || fresh(daemon.parcel.data))
      ensures daemon.Reached(old(daemon.effects), Served(old(daemon.Table()), call, old(daemon.ended)))
      ensures daemon.ended == [] && proxy.stream.outgoing.bytes == []
      ensures proxy.stream.incoming.closed ==> proxy.stream.incoming.bytes == old(proxy.stream.incoming.bytes)
      ensures !proxy.stream.incoming.closed ==>
                && Answers(daemon.parcel.Content(), Served(old(daemon.Table()), call, old(daemon.ended)).answer)
                && proxy.stream.incoming.bytes
                   == old(proxy.stream.incoming.bytes) + PushFrames(coming) + NormalFrame(daemon.parcel.Content())
    {
      hide Holds, IntBytes, IntAt, CallOk, Served, Reply, NormalFrame, Marshal;
      RequestInFront(call, request, []);
      assert Sized(request) + [] == Sized(request);
      var _ := daemonEnd.WriteN(PushFrames(coming));
      var ret := daemon.Dispatch(daemonEnd, call, request, []);
    }

    /** fbus_proxy_request */
    method Request(p: Parcel, ghost call: Call, ghost early: seq<Push>) returns (ok: bool)
      requires Valid() && p == proxy.parcel && CallOk(call) && p.cursor == p.size && p.Written(Marshal(call))
      requires Arrived(Now(), early)
      modifies Footprint()
      ensures Valid() && fresh(Footprint() - old(Footprint())) && proxy.parcel == p && coming == old(coming)
      ensures After(old(Now()), Now(), call, old(Heard(early)))
      ensures !ok ==> Expected(old(Now()), call) == Answer(RET_FAIL, None, None)
      ensures ok ==> p.Unread(Reply(Expected(old(Now()), call)))
    {
      hide Holds, IntBytes, IntAt, CallOk, Served, Reply, NormalFrame, Marshal, Receive, Answers, Pack, PushFrames,
        ReplyTo, After, Expected;
      ghost var w, heard := Now(), Heard(early);
      ExpectedIs(w, call);
      if proxy.busy {
        NothingDone(w, call, heard);
        return false;
      }
      ReplyToIs(daemon.Table(), call, daemon.ended);
      proxy.busy := true;
      ok := Exchange(p, call, early);
      proxy.busy := false;
      if w.outClosed {
        NothingDone(w, call, heard);
      } else {
        AllDone(w, Now(), call, heard);
      }
    }

    /** The values of the answer. */
    static ghost function ReplyTo(t: seq<ServiceInfo>, call: Call, pids: seq<int32>): (vs: seq<Value>)
      requires TableOk(t)
    {
      AnswerShape(t, call, pids);
      Reply(Served(t, call, pids).answer)
    }

    static lemma ReplyToIs(t: seq<ServiceInfo>, call: Call, pids: seq<int32>)
      requires TableOk(t)
      ensures var a := Served(t, call, pids).answer;
              (a.info.Some? ==> RecordOk(a.info.value)) && ReplyTo(t, call, pids) == Reply(a)
    {
      hide Served, Reply;
      AnswerShape(t, call, pids);
    }

    /** The part of fbus_proxy_request that is guarded by the busy flag. */
    method Exchange(p: Parcel, ghost call: Call, ghost early: seq<Push>) returns (ok: bool)
      requires Valid() && p == proxy.parcel && CallOk(call) && p.cursor == p.size && p.Written(Marshal(call))
      requires Arrived(Now(), early)
      modifies proxy`delivered, p, p.data, proxy.stream.incoming`bytes, proxy.stream.outgoing`bytes
      modifies daemon, daemon.infos.infos, daemon.parcel, daemon.parcel.data
      ensures Valid() && (p.data == old(p.data) || fresh(p.data))
      ensures daemon.parcel.data == old(daemon.parcel.data) || fresh(daemon.parcel.data)
      ensures ok <==> !proxy.stream.outgoing.closed && !proxy.stream.incoming.closed
      ensures proxy.stream.outgoing.closed ==> Now() == old(Now())
      ensures !proxy.stream.outgoing.closed ==>
                && daemon.Reached(old(daemon.effects), Served(old(daemon.Table()), call, old(daemon.ended)))
                && daemon.ended == [] && proxy.stream.outgoing.bytes == []
                && proxy.delivered == old(proxy.delivered) + old(Heard(early))
      ensures ok ==> proxy.stream.incoming.bytes == []
      ensures ok ==> p.Unread(ReplyTo(old(daemon.Table()), call, old(daemon.ended)))
    {
      hide Holds, IntBytes, IntAt, CallOk, Served, Reply, NormalFrame, Marshal, Receive, Answers, Pack, PushFrames,
        ReplyTo;
      ghost var request := p.Content();
      RequestSize(call, request);
      ok := proxy.SendRequest(p);
      if !ok {
        return;
      }
      NothingBefore(request);
      WhileBlocked(call, request);
      ReplyToIs(old(daemon.Table()), call, old(daemon.ended));
      ghost var a := Served(old(daemon.Table()), call, old(daemon.ended)).answer;
      if proxy.stream.incoming.closed {
        ReceiveCutOff(early);
      } else {
        OpenAnswers(daemon.parcel.Content(), a);
        BothFrames(early, coming, daemon.parcel.Content());
      }
      ok := proxy.RecvResponse(p);
    }

    // -------------------------------------------------------------- the client functions

    /** A request without arguments. */
    method Begin(code: int32, ghost early: seq<Push>) returns (p: Parcel)
      requires Valid()
      modifies proxy`parcel, Own()
      ensures Valid() && fresh(Footprint() - old(Footprint())) && p == proxy.parcel && coming == old(coming)
      ensures Heard(early) == old(Heard(early))
      ensures Now() == old(Now()) && p.cursor == p.size && p.Written([IntV(code)])
    {
      hide Holds;
      p := proxy.GetParcel();
      p.WriteInt(code, []);
      assert [] + [IntV(code)] == [IntV(code)];
    }

    /** A request with an index. */
    method BeginIndex(code: int32, i: int32, ghost call: Call, ghost early: seq<Push>) returns (p: Parcel)
      requires Valid() && CallOk(call) && Code(call) == code && Arguments(call) == [IntV(i)]
      modifies proxy`parcel, Own()
      ensures Valid() && fresh(Footprint() - old(Footprint())) && p == proxy.parcel && coming == old(coming)
      ensures Heard(early) == old(Heard(early)) && Now() == old(Now())
      ensures p.cursor == p.size && p.Written(Marshal(call))
    {
      hide Holds, ValueOk, CallOk, Marshal, Arguments, Code;
      MarshalSteps(call);
      ArgumentsOk(call);
      p := proxy.GetParcel();
      WriteIndex(p, code, i);
    }

    /** A request with a service name. */
    method BeginName(code: int32, name: seq<byte>, ghost call: Call, ghost early: seq<Push>) returns (p: Parcel)
      requires Valid() && CallOk(call) && Code(call) == code && Arguments(call) == [StringV(name)]
      modifies proxy`parcel, Own()
      ensures Valid() && fresh(Footprint() - old(Footprint())) && p == proxy.parcel && coming == old(coming)
      ensures Heard(early) == old(Heard(early)) && Now() == old(Now())
      ensures p.cursor == p.size && p.Written(Marshal(call))
    {
      hide Holds, ValueOk, CallOk, Marshal, Arguments, Code;
      MarshalSteps(call);
      ArgumentsOk(call);
      p := proxy.GetParcel();
      WriteName(p, code, name);
    }

    /** A request with a service name and the process that runs it. */
    method BeginOwner(code: int32, name: seq<byte>, host: seq<byte>, pid: int32, ghost call: Call, ghost early: seq<Push>)
      returns (p: Parcel)
      requires Valid() && CallOk(call) && Code(call) == code && Arguments(call) == [StringV(name), StringV(host), IntV(pid)]
      modifies proxy`parcel, Own()
      ensures Valid() && fresh(Footprint() - old(Footprint())) && p == proxy.parcel && coming == old(coming)
      ensures Heard(early) == old(Heard(early)) && Now() == old(Now())
      ensures p.cursor == p.size && p.Written(Marshal(call))
    {
      hide Holds, ValueOk, CallOk, Marshal, Arguments, Code;
      MarshalSteps(call);
      ArgumentsOk(call);
      assert ValueOk(Arguments(call)[0]) && ValueOk(Arguments(call)[1]);
      p := proxy.GetParcel();
      WriteOwner(p, code, name, host, pid);
    }

    static method WriteIndex(p: Parcel, code: int32, i: int32)
      requires p.Valid() && p.Written([])
      modifies p, p.data
      ensures p.Valid() && (p.data == old(p.data) || fresh(p.data))
      ensures p.cursor == p.size && p.Written([IntV(code)] + [IntV(i)])
    {
      hide Holds, ValueOk;
      p.WriteInt(code, []);
      assert [] + [IntV(code)] == [IntV(code)];
      p.WriteInt(i, [IntV(code)]);
    }

    static method WriteName(p: Parcel, code: int32, name: seq<byte>)
      requires p.Valid() && p.Written([]) && ValueOk(StringV(name))
      modifies p, p.data
      ensures p.Valid() && (p.data == old(p.data) || fresh(p.data))
      ensures p.cursor == p.size && p.Written([IntV(code)] + [StringV(name)])
    {
      hide Holds, ValueOk;
      p.WriteInt(code, []);
      assert [] + [IntV(code)] == [IntV(code)];
      p.WriteString(name, [IntV(code)]);
    }

    static method WriteOwner(p: Parcel, code: int32, name: seq<byte>, host: seq<byte>, pid: int32)
      requires p.Valid() && p.Written([]) && ValueOk(StringV(name)) && ValueOk(StringV(host))
      modifies p, p.data
      ensures p.Valid() && (p.data == old(p.data) || fresh(p.data))
      ensures p.cursor == p.size
      ensures p.Written([IntV(code)] + [StringV(name)] + [StringV(host)] + [IntV(pid)])
    {
      hide Holds, ValueOk;
      WriteName(p, code, name);
      p.WriteString(host, [IntV(code)] + [StringV(name)]);
      p.WriteInt(pid, [IntV(code)] + [StringV(name)] + [StringV(host)]);
    }

    /** What every client function returns: the error of the request, or the code in the answer. */
    method Ask(p: Parcel, ghost call: Call, ghost early: seq<Push>) returns (ret: int32)
      requires Valid() && p == proxy.parcel && CallOk(call) && p.cursor == p.size && p.Written(Marshal(call))
      requires Arrived(Now(), early)
      modifies Footprint()
      ensures Valid() && fresh(Footprint() - old(Footprint())) && proxy.parcel == p && coming == old(coming)
      ensures After(old(Now()), Now(), call, old(Heard(early)))
      ensures ret == Expected(old(Now()), call).ret
      ensures ret == RET_OK ==> p.Unread(Reply(Expected(old(Now()), call))[1..])
    {
      hide Holds, IntAt, Served, CallOk, After, Expected, Marshal, Pack;
      hide Reply;
      ret := RET_FAIL;
      var ok := Request(p, call, early);
      if ok {
        ReplyTail(Expected(old(Now()), call));
        ret := p.GetInt(Reply(Expected(old(Now()), call)));
      }
    }

    /** `*info = *(FBusServiceInfo*)fbus_parcel_get_data(parcel, sizeof(FBusServiceInfo))` */
    method ReceiveInfo(p: Parcel, ghost a: Answer) returns (info: Option<Record>)
      requires p.Valid() && a.info.Some? && RecordOk(a.info.value) && a.nr.None? && p.Unread(Reply(a)[1..])
      modifies p`cursor
      ensures p.Valid() && info == a.info
    {
      hide Holds, Pack, Unpack, Reply;
      ReplyTail(a);
      var d := p.GetData(PACKED_SIZE, Reply(a)[1..]);
      UnpackPack(a.info.value);
      info := Some(Unpack(d.value));
    }

    /** The client functions that return a record fetch it from an answer that carries RET_OK. */
    method AskInfo(p: Parcel, ghost call: Call, ghost early: seq<Push>) returns (ret: int32, info: Option<Record>)
      requires Valid() && p == proxy.parcel && CallOk(call) && p.cursor == p.size && p.Written(Marshal(call))
      requires Arrived(Now(), early) && (call.GetCall? || call.QueryCall? || call.RegisterCall?)
      modifies Footprint()
      ensures Valid() && fresh(Footprint() - old(Footprint())) && coming == old(coming)
      ensures After(old(Now()), Now(), call, old(Heard(early)))
      ensures Answer(ret, None, info) == Expected(old(Now()), call)
    {
      hide Holds, IntAt, Served, CallOk, After, Expected, Marshal, Reply;
      ret, info := RET_FAIL, None;
      ret := Ask(p, call, early);
      if ret == RET_OK {
        info := ReceiveInfo(p, Expected(old(Now()), call));
      }
    }

    method AskNr(p: Parcel, ghost early: seq<Push>) returns (ret: int32, nr: Option<int32>)
      requires Valid() && p == proxy.parcel && p.cursor == p.size && p.Written(Marshal(GetNrCall))
      requires Arrived(Now(), early) && CallOk(GetNrCall)
      modifies Footprint()
      ensures Valid() && fresh(Footprint() - old(Footprint())) && coming == old(coming)
      ensures After(old(Now()), Now(), GetNrCall, old(Heard(early)))
      ensures Answer(ret, nr, None) == Expected(old(Now()), GetNrCall)
    {
      hide Holds, IntAt, Served, CallOk, After, Expected, Marshal, Reply;
      nr := None;
      ret := Ask(p, GetNrCall, early);
      if ret == RET_OK {
        ReplyTail(Expected(old(Now()), GetNrCall));
        var n := p.GetInt(Reply(Expected(old(Now()), GetNrCall))[1..]);
        nr := Some(n);
      }
    }

    /** fbus_service_manager_get_nr */
    method GetNr(ghost early: seq<Push>) returns (ret: int32, nr: Option<int32>)
      requires Valid() && CallOk(GetNrCall) && Arrived(Now(), early)
      modifies Footprint()
      ensures Valid() && fresh(Footprint() - old(Footprint())) && coming == old(coming)
      ensures After(old(Now()), Now(), GetNrCall, old(Heard(early)))
      ensures Answer(ret, nr, None) == Expected(old(Now()), GetNrCall)
    {
      hide Holds, IntAt, Served, CallOk, After, Expected, Marshal, Reply, Now, Heard;
      ghost var call := GetNrCall;
      MarshalSteps(call);
      var p := Begin(FBUS_SERVICE_MANAGER_REQ_GET_NR, early);
      ret, nr := AskNr(p, early);
    }

    /** fbus_service_manager_get */
    method Get(i: int32, ghost early: seq<Push>) returns (ret: int32, info: Option<Record>)
      requires Valid() && CallOk(GetCall(i)) && Arrived(Now(), early)
      modifies Footprint()
      ensures Valid() && fresh(Footprint() - old(Footprint())) && coming == old(coming)
      ensures After(old(Now()), Now(), GetCall(i), old(Heard(early)))
      ensures Answer(ret, None, info) == Expected(old(Now()), GetCall(i))
    {
      hide Holds, IntAt, Served, CallOk, After, Expected, Marshal, Reply, Now, Heard;
      ghost var call := GetCall(i);
      var p := BeginIndex(FBUS_SERVICE_MANAGER_REQ_GET, i, call, early);
      ret, info := AskInfo(p, call, early);
    }

    /** fbus_service_manager_stop */
    method Stop(name: seq<byte>, ghost early: seq<Push>) returns (ret: int32)
      requires Valid() && CallOk(StopCall(name)) && Arrived(Now(), early)
      modifies Footprint()
      ensures Valid() && fresh(Footprint() - old(Footprint())) && coming == old(coming)
      ensures After(old(Now()), Now(), StopCall(name), old(Heard(early)))
      ensures Answer(ret, None, None) == Expected(old(Now()), StopCall(name))
    {
      hide Holds, IntAt, Served, CallOk, After, Expected, Marshal, Reply, Now, Heard;
      ghost var call := StopCall(name);
      var p := BeginName(FBUS_SERVICE_MANAGER_REQ_STOP, name, call, early);
      ret := Ask(p, call, early);
    }

    /** fbus_service_manager_start */
    method Start(name: seq<byte>, ghost early: seq<Push>) returns (ret: int32)
      requires Valid() && CallOk(StartCall(name)) && Arrived(Now(), early)
      modifies Footprint()
      ensures Valid() && fresh(Footprint() - old(Footprint())) && coming == old(coming)
      ensures After(old(Now()), Now(), StartCall(name), old(Heard(early)))
      ensures Answer(ret, None, None) == Expected(old(Now()), StartCall(name))
    {
      hide Holds, IntAt, Served, CallOk, After, Expected, Marshal, Reply, Now, Heard;
      ghost var call := StartCall(name);
      var p := BeginName(FBUS_SERVICE_MANAGER_REQ_START, name, call, early);
      ret := Ask(p, call, early);
    }

    /** fbus_service_manager_query */
    method Query(name: seq<byte>, ghost early: seq<Push>) returns (ret: int32, info: Option<Record>)
      requires Valid() && CallOk(QueryCall(name)) && Arrived(Now(), early)
      modifies Footprint()
      ensures Valid() && fresh(Footprint() - old(Footprint())) && coming == old(coming)
      ensures After(old(Now()), Now(), QueryCall(name), old(Heard(early)))
      ensures Answer(ret, None, info) == Expected(old(Now()), QueryCall(name))
    {
      hide Holds, IntAt, Served, CallOk, After, Expected, Marshal, Reply, Now, Heard;
      ghost var call := QueryCall(name);
      var p := BeginName(FBUS_SERVICE_MANAGER_REQ_QUERY, name, call, early);
      ret, info := AskInfo(p, call, early);
    }

    /** fbus_service_manager_register, called by process `pid` */
    method Register(name: seq<byte>, pid: int32, ghost early: seq<Push>) returns (ret: int32, info: Option<Record>)
      requires Valid() && CallOk(RegisterCall(name, FBUS_LOCALHOST, pid)) && Arrived(Now(), early)
      modifies Footprint()
      ensures Valid() && fresh(Footprint() - old(Footprint())) && coming == old(coming)
      ensures After(old(Now()), Now(), RegisterCall(name, FBUS_LOCALHOST, pid), old(Heard(early)))
      ensures Answer(ret, None, info) == Expected(old(Now()), RegisterCall(name, FBUS_LOCALHOST, pid))
    {
      hide Holds, IntAt, Served, CallOk, After, Expected, Marshal, Reply, Now, Heard;
      ghost var call := RegisterCall(name, FBUS_LOCALHOST, pid);
      var p := BeginOwner(FBUS_SERVICE_MANAGER_REQ_REGISTER, name, FBUS_LOCALHOST, pid, call, early);
      ret, info := AskInfo(p, call, early);
    }

    /** fbus_service_manager_unregister, called by process `pid` */
    method Unregister(name: seq<byte>, pid: int32, ghost early: seq<Push>) returns (ret: int32)
      requires Valid() && CallOk(UnregisterCall(name, FBUS_LOCALHOST, pid)) && Arrived(Now(), early)
      modifies Footprint()
      ensures Valid() && fresh(Footprint() - old(Footprint())) && coming == old(coming)
      ensures After(old(Now()), Now(), UnregisterCall(name, FBUS_LOCALHOST, pid), old(Heard(early)))
      ensures Answer(ret, None, None) == Expected(old(Now()), UnregisterCall(name, FBUS_LOCALHOST, pid))
    {
      hide Holds, IntAt, Served, CallOk, After, Expected, Marshal, Reply, Now, Heard;
      ghost var call := UnregisterCall(name, FBUS_LOCALHOST, pid);
      var p := BeginOwner(FBUS_SERVICE_MANAGER_REQ_UNREGISTER, name, FBUS_LOCALHOST, pid, call, early);
      ret := Ask(p, call, early);
    }

    // -------------------------------------------------------------- a whole conversation

    /** A client calls what `call` says. */
    method Perform(call: Call, ghost early: seq<Push>) returns (a: Answer)
      requires Valid() && CallOk(call) && Arrived(Now(), early) && FromHere(call)
      modifies Footprint()
      ensures Valid() && fresh(Footprint() - old(Footprint())) && coming == old(coming)
      ensures After(old(Now()), Now(), call, old(Heard(early)))
      ensures a == Expected(old(Now()), call)
    {
      hide Served, CallOk, After, Expected, Now, Heard, Arrived;
      match call {
        case GetCall(i) =>
          var ret, info := Get(i, early);
          a := Answer(ret, None, info);
        case GetNrCall =>
          var ret, nr := GetNr(early);
          a := Answer(ret, nr, None);
        case StopCall(name) =>
          var ret := Stop(name, early);
          a := Answer(ret, None, None);
        case StartCall(name) =>
          var ret := Start(name, early);
          a := Answer(ret, None, None);
        case QueryCall(name) =>
          var ret, info := Query(name, early);
          a := Answer(ret, None, info);
        case RegisterCall(name, _, pid) =>
          var ret, info := Register(name, pid, early);
          a := Answer(ret, None, info);
        case UnregisterCall(name, _, pid) =>
          var ret := Unregister(name, pid, early);
          a := Answer(ret, None, None);
      }
    }

    /** One of them: some processes have ended, and the client calls. */
    method CallOnce(r: Round) returns (a: Answer)
      requires Valid() && Arrived(Now(), []) && !Now().busy && !Now().inClosed && !Now().outClosed
      requires CallOk(r.call) && FromHere(r.call)
      modifies Footprint()
      ensures Valid() && fresh(Footprint() - old(Footprint())) && coming == old(coming)
      ensures Heard([]) == old(Heard([]))
      ensures var w, o := old(Now()), Served(old(Now()).table, r.call, r.pids);
              && a == o.answer
              && Now() == w.(table := o.table, effects := w.effects + o.effects, ended := [],
                             delivered := w.delivered + old(Heard([])))
    {
      hide CallOk, Served;
      daemon.ended := r.pids;
      a := Perform(r.call, []);
    }

    /**
     Any number of calls over one connection, with processes ending in between: the answers, the
     table and what is done to processes are those of the same calls made directly on the daemon's
     table, and every notification has been heard once, in order.
     */
    method Converse(rounds: seq<Round>) returns (answers: seq<Answer>)
      requires Valid() && Arrived(Now(), []) && !Now().busy && !Now().inClosed && !Now().outClosed && Now().ended == []
      requires forall r <- rounds :: CallOk(r.call) && FromHere(r.call)
      modifies Footprint()
      ensures Valid() && fresh(Footprint() - old(Footprint()))
      ensures answers == AnswersOver(old(Now()).table, rounds)
      ensures Now() == old(Now()).(table := Run(old(Now()).table, rounds),
                                   effects := old(Now()).effects + EffectsOver(old(Now()).table, rounds),
                                   delivered := old(Now()).delivered + Repeated(old(Heard([])), |rounds|))
    {
      hide CallOk, Now, AnswersOver, EffectsOver, Run, Served, Repeated, Heard, Arrived, After, Expected, Direct;
      answers := [];
      ghost var w, now, heard := Now(), Now(), Heard([]);
      StartOf(w, rounds, heard);
      for i := 0 to |rounds|
        invariant Valid() && fresh(Footprint() - old(Footprint()))
        invariant Now() == now && Heard([]) == heard
        invariant TableOk(w.table) && Reached(w, rounds, heard, i, now, answers)
      {
        CanGoOn(w, rounds, heard, i, now, answers);
        RoundReached(w, rounds, heard, i, now, answers);
        var a := CallOnce(rounds[i]);
        now := Now();
        answers := answers + [a];
      }
      EndOf(w, rounds, heard, now, answers);
    }

    /** Where the conversation is after `i` calls. */
    static ghost predicate Reached(
      w: World, rounds: seq<Round>, heard: seq<Push>, i: nat, now: World, answers: seq<Answer>)
      requires TableOk(w.table) && i <= |rounds|
    {
      && TableOk(now.table) && now == w.(table := now.table, effects := now.effects,
                                         delivered := w.delivered + Repeated(heard, i))
      && Arrived(now, []) && !now.busy && !now.inClosed && !now.outClosed && now.ended == []
      && answers + AnswersOver(now.table, rounds[i..]) == AnswersOver(w.table, rounds)
      && now.effects + EffectsOver(now.table, rounds[i..]) == w.effects + EffectsOver(w.table, rounds)
      && Run(now.table, rounds[i..]) == Run(w.table, rounds)
    }

    static lemma StartOf(w: World, rounds: seq<Round>, heard: seq<Push>)
      requires TableOk(w.table) && Arrived(w, []) && !w.busy && !w.inClosed && !w.outClosed && w.ended == []
      ensures Reached(w, rounds, heard, 0, w, [])
    {
      hide AnswersOver, EffectsOver, Run, Arrived, Repeated;
      RepeatedStep(heard, 0);
      assert rounds[0..] == rounds && w.delivered + [] == w.delivered;
    }

    static lemma CanGoOn(w: World, rounds: seq<Round>, heard: seq<Push>, i: nat, now: World, answers: seq<Answer>)
      requires TableOk(w.table) && i < |rounds| && Reached(w, rounds, heard, i, now, answers)
      ensures TableOk(now.table) && Arrived(now, []) && !now.busy && !now.inClosed && !now.outClosed
    {
      hide AnswersOver, EffectsOver, Run, Arrived, Repeated;
    }

    static lemma RoundReached(w: World, rounds: seq<Round>, heard: seq<Push>, i: nat, now: World, answers: seq<Answer>)
      requires TableOk(w.table) && i < |rounds| && Reached(w, rounds, heard, i, now, answers)
      ensures TableOk(now.table)
      ensures var o := Served(now.table, rounds[i].call, rounds[i].pids);
              Reached(w, rounds, heard, i + 1,
                      now.(table := o.table, effects := now.effects + o.effects, ended := [],
                           delivered := now.delivered + heard),
                      answers + [o.answer])
    {
      hide AnswersOver, EffectsOver, Run, Served, Repeated, Arrived;
      var o := Served(now.table, rounds[i].call, rounds[i].pids);
      RoundUnfolds(now.table, rounds, i);
      RepeatedStep(heard, i);
      NothingArrived(now);
      var next := now.(table := o.table, effects := now.effects + o.effects, ended := [], delivered := now.delivered + heard);
      NothingArrived(next);
      assert w.delivered + Repeated(heard, i) + heard == w.delivered + Repeated(heard, i + 1);
      assert answers + [o.answer] + AnswersOver(o.table, rounds[i + 1..])
          == answers + ([o.answer] + AnswersOver(o.table, rounds[i + 1..]));
      assert now.effects + o.effects + EffectsOver(o.table, rounds[i + 1..])
          == now.effects + (o.effects + EffectsOver(o.table, rounds[i + 1..]));
    }

    static lemma EndOf(w: World, rounds: seq<Round>, heard: seq<Push>, now: World, answers: seq<Answer>)
      requires TableOk(w.table) && Reached(w, rounds, heard, |rounds|, now, answers)
      ensures answers == AnswersOver(w.table, rounds)
      ensures now == w.(table := Run(w.table, rounds), effects := w.effects + EffectsOver(w.table, rounds),
                        delivered := w.delivered + Repeated(heard, |rounds|))
    {
      hide AnswersOver, EffectsOver, Run, Repeated, Arrived;
      NoRounds(now.table, rounds[|rounds|..]);
    }
  }

  lemma ExpectedIs(w: World, call: Call)
    requires TableOk(w.table)
    ensures Session.Expected(w, call) == if w.busy || w.outClosed || w.inClosed then Answer(RET_FAIL, None, None)
                                         else Served(w.table, call, w.ended).answer
  {
    hide Served;
  }

  lemma NothingDone(w: World, call: Call, pushes: seq<Push>)
    requires TableOk(w.table) && (w.busy || w.outClosed)
    ensures Session.After(w, w, call, pushes)
  {
  }

  lemma AllDone(w: World, u: World, call: Call, pushes: seq<Push>)
    requires TableOk(w.table) && !w.busy && !w.outClosed
    requires u.table == Served(w.table, call, w.ended).table
    requires u.effects == w.effects + Served(w.table, call, w.ended).effects
    requires u.ended == [] && u.delivered == w.delivered + pushes && u.outbox == [] && !u.busy
    requires u.inClosed == w.inClosed && u.outClosed == w.outClosed && u.listening == w.listening
    requires !w.inClosed ==> u.inbox == []
    ensures Session.After(w, u, call, pushes)
  {
    hide Served;
  }

  /** The host a client gives is its own. */
  predicate FromHere(call: Call) {
    call.RegisterCall? || call.UnregisterCall? ==> call.host == FBUS_LOCALHOST
  }

  function Repeated<T>(s: seq<T>, n: nat): seq<T> {
    if n == 0 then [] else Repeated(s, n - 1) + s
  }

  lemma RepeatedStep<T>(s: seq<T>, n: nat)
    ensures Repeated(s, 0) == [] && Repeated(s, n + 1) == Repeated(s, n) + s
  {
  }

  lemma NothingArrived(w: World)
    ensures w.inbox == [] && w.outbox == [] <==> Arrived(w, [])
  {
  }

  lemma NoRounds(t: seq<ServiceInfo>, rounds: seq<Round>)
    requires TableOk(t) && rounds == []
    ensures AnswersOver(t, rounds) == [] && EffectsOver(t, rounds) == [] && Run(t, rounds) == t
  {
  }

  lemma RoundUnfolds(t: seq<ServiceInfo>, rounds: seq<Round>, i: nat)
    requires TableOk(t) && i < |rounds|
    ensures var o := Served(t, rounds[i].call, rounds[i].pids);
            && TableOk(o.table)
            && AnswersOver(t, rounds[i..]) == [o.answer] + AnswersOver(o.table, rounds[i + 1..])
            && EffectsOver(t, rounds[i..]) == o.effects + EffectsOver(o.table, rounds[i + 1..])
            && Run(t, rounds[i..]) == Run(o.table, rounds[i + 1..])
  {
    hide Served;
    RoundKeepsTable(t, rounds[i]);
    assert rounds[i..][0] == rounds[i] && rounds[i..][1..] == rounds[i + 1..];
  }

  function AnswersOver(t: seq<ServiceInfo>, rounds: seq<Round>): seq<Answer>
    requires TableOk(t)
    decreases |rounds|
  {
    if rounds == [] then []
    else
      RoundKeepsTable(t, rounds[0]);
      var o := Served(t, rounds[0].call, rounds[0].pids);
      [o.answer] + AnswersOver(o.table, rounds[1..])
  }

  function EffectsOver(t: seq<ServiceInfo>, rounds: seq<Round>): seq<Effect>
    requires TableOk(t)
    decreases |rounds|
  {
    if rounds == [] then []
    else
      RoundKeepsTable(t, rounds[0]);
      var o := Served(t, rounds[0].call, rounds[0].pids);
      o.effects + EffectsOver(o.table, rounds[1..])
  }

  lemma RoundKeepsTable(t: seq<ServiceInfo>, r: Round)
    requires TableOk(t)
    ensures TableOk(Served(t, r.call, r.pids).table)
  {
    hide Direct, ReapAll;
    DirectKeepsServices(t, r.call);
    ReapAllKeepsServices(Direct(t, r.call).table, r.pids);
  }

  lemma NothingBefore(request: seq<byte>)
    requires SizeOk(request)
    ensures [] + Sized(request) == Sized(request)
  {
  }

  lemma RequestSize(call: Call, request: seq<byte>)
    requires CallOk(call) && Holds(request, 0, |request|, Marshal(call))
    ensures SizeOk(request)
  {
    hide Holds, Marshal;
    HoldsSize(request, 0, |request|, Marshal(call));
  }

  lemma OpenAnswers(content: seq<byte>, a: Answer)
    requires Answers(content, a)
    ensures SizeOk(content) && (a.info.Some? ==> RecordOk(a.info.value)) && Holds(content, 0, |content|, Reply(a))
  {
  }

  /** Notifications from before and during the call, then the answer. */
  lemma BothFrames(early: seq<Push>, coming: seq<Push>, content: seq<byte>)
    requires PushesOk(early) && PushesOk(coming) && SizeOk(content)
    ensures Receive(PushFrames(early) + PushFrames(coming) + NormalFrame(content))
         == Reception(early + coming, Received(content, []))
  {
    hide Receive, NormalFrame;
    PushFramesAppend(early, coming);
    ReceiveSynchronises(early + coming, content, []);
    assert PushFrames(early) + PushFrames(coming) + NormalFrame(content)
        == PushFrames(early + coming) + NormalFrame(content) + [];
  }
}
