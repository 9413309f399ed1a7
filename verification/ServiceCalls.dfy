/**
 What the requests to the service manager mean: the handlers of
 fbus/fbus_service_manager_daemon.c as functions on the service table, and the form in which
 requests and answers travel.
 */
module ServiceCalls {
  import opened Bytes
  import opened ParcelFormat
  import opened ServiceTable

  const FBUS_SERVICE_MANAGER_REQ_GET: int32 := 1
  const FBUS_SERVICE_MANAGER_REQ_GET_NR: int32 := 2
  const FBUS_SERVICE_MANAGER_REQ_STOP: int32 := 3
  const FBUS_SERVICE_MANAGER_REQ_START: int32 := 4
  const FBUS_SERVICE_MANAGER_REQ_QUERY: int32 := 5
  const FBUS_SERVICE_MANAGER_REQ_REGISTER: int32 := 6
  const FBUS_SERVICE_MANAGER_REQ_UNREGISTER: int32 := 7

  datatype Call =
    | GetCall(index: int32)
    | GetNrCall
    | StopCall(name: seq<byte>)
    | StartCall(name: seq<byte>)
    | QueryCall(name: seq<byte>)
    | RegisterCall(name: seq<byte>, host: seq<byte>, pid: int32)
    | UnregisterCall(name: seq<byte>, host: seq<byte>, pid: int32)

  /** What the daemon does to processes. */
  datatype Effect = Launch(exec: seq<byte>) | Terminate(pid: int32)

  /** Return code, and the data that come with some of the answers. */
  datatype Answer = Answer(ret: int32, nr: Option<int32>, info: Option<Record>)

  datatype Outcome = Outcome(table: seq<ServiceInfo>, effects: seq<Effect>, answer: Answer)

  function Failed(t: seq<ServiceInfo>, ret: int32): Outcome {
    Outcome(t, [], Answer(ret, None, None))
  }

  function Done(t: seq<ServiceInfo>, effects: seq<Effect>): Outcome {
    Outcome(t, effects, Answer(RET_OK, None, None))
  }

  function Told(t: seq<ServiceInfo>, info: Record): Outcome {
    Outcome(t, [], Answer(RET_OK, None, Some(info)))
  }

  /** handle_stop */
  function Stop(t: seq<ServiceInfo>, name: seq<byte>): Outcome {
    match Find(t, name)
    case None => Failed(t, RET_NOT_FOUND)
    case Some(k) =>
      if t[k].status == FBUS_SERVICE_STARTED
      then Done(t[k := t[k].(status := FBUS_SERVICE_STOPING)], [Terminate(t[k].pid)])
      else Done(t, [])
  }

  /** handle_start */
  function Start(t: seq<ServiceInfo>, name: seq<byte>): Outcome {
    match Find(t, name)
    case None => Failed(t, RET_NOT_FOUND)
    case Some(k) =>
      if t[k].status == FBUS_SERVICE_STOPED
      then Done(t[k := t[k].(status := FBUS_SERVICE_STARTING)], [Launch(CString(t[k].exec))])
      else Done(t, [])
  }

  /** The record after handle_register. */
  function Registered(info: ServiceInfo, host: seq<byte>, pid: int32): ServiceInfo {
    info.(pid := pid, host := StrNCpy(info.host, host, NAME_SIZE - 1), status := FBUS_SERVICE_STARTED)
  }

  /** handle_register */
  function Register(t: seq<ServiceInfo>, name: seq<byte>, host: seq<byte>, pid: int32): Outcome {
    match Find(t, name)
    case None => Failed(t, RET_NOT_FOUND)
    case Some(k) => Told(t[k := Registered(t[k], host, pid)], Registered(t[k], host, pid))
  }

  /** handle_unregister */
  function Unregister(t: seq<ServiceInfo>, name: seq<byte>, host: seq<byte>, pid: int32): Outcome {
    match Find(t, name)
    case None => Failed(t, RET_NOT_FOUND)
    case Some(k) =>
      if t[k].pid == pid && CString(t[k].host) == host
      then Done(t[k := t[k].(status := FBUS_SERVICE_STOPED)], [])
      else Failed(t, RET_FAIL)
  }

  /** Every request, called directly on the daemon's table. */
  function Direct(t: seq<ServiceInfo>, call: Call): Outcome
    requires TableOk(t)
  {
    match call
    case GetCall(i) => if 0 <= i < |t| then Told(t, t[i]) else Failed(t, RET_FAIL)
    case GetNrCall => Outcome(t, [], Answer(RET_OK, Some(|t|), None))
    case StopCall(name) => Stop(t, name)
    case StartCall(name) => Start(t, name)
    case QueryCall(name) =>
      (match Find(t, name)
       case None => Failed(t, RET_NOT_FOUND)
       case Some(k) => Told(t, t[k]))
    case RegisterCall(name, host, pid) => Register(t, name, host, pid)
    case UnregisterCall(name, host, pid) => Unregister(t, name, host, pid)
  }

  // ---------------------------------------------------------------- children that ended

  /** The first service run by that process. */
  function FindPid(t: seq<ServiceInfo>, pid: int32, i: nat): (k: Option<nat>)
    requires i <= |t|
    ensures k.Some? ==> i <= k.value < |t| && t[k.value].pid == pid
    ensures k.Some? ==> forall j :: i <= j < k.value ==> t[j].pid != pid
    ensures k.None? ==> forall j :: i <= j < |t| ==> t[j].pid != pid
    decreases |t| - i
  {
    if i == |t| then None
    else if t[i].pid == pid then Some(i)
    else FindPid(t, pid, i + 1)
  }

  /** One round of check_children; the start type is compared with a life cycle, as in the source. */
  function Reap(t: seq<ServiceInfo>, pid: int32): (seq<ServiceInfo>, seq<Effect>) {
    match FindPid(t, pid, 0)
    case None => (t, [])
    case Some(k) =>
      if t[k].startType == FBUS_SERVICE_RUN_FOREVER
      then (t[k := t[k].(status := FBUS_SERVICE_STARTING)], [Launch(CString(t[k].exec))])
      else (t[k := t[k].(status := FBUS_SERVICE_STOPED)], [])
  }

  /** What it would do if it asked for the life cycle. */
  function ReapByLifeCycle(t: seq<ServiceInfo>, pid: int32): (seq<ServiceInfo>, seq<Effect>) {
    match FindPid(t, pid, 0)
    case None => (t, [])
    case Some(k) =>
      if t[k].lifeCycle == FBUS_SERVICE_RUN_FOREVER
      then (t[k := t[k].(status := FBUS_SERVICE_STARTING)], [Launch(CString(t[k].exec))])
      else (t[k := t[k].(status := FBUS_SERVICE_STOPED)], [])
  }

  /** Going by the start type is going by the life cycle exactly if what is started on load is what runs forever. */
  lemma RestartFollowsLifeCycleIff(t: seq<ServiceInfo>, pid: int32, k: nat)
    requires FindPid(t, pid, 0) == Some(k)
    ensures Reap(t, pid) == ReapByLifeCycle(t, pid)
       <==> (t[k].startType == FBUS_SERVICE_START_ON_LOAD <==> t[k].lifeCycle == FBUS_SERVICE_RUN_FOREVER)
  {
    hide CString, FindPid;
    assert |[Launch(CString(t[k].exec))]| == 1;
  }

  /** A service that is started on request and should run forever is not restarted; one that is started on load is. */
  lemma RestartGoesByStartType(r: ServiceInfo)
    ensures var onRequest: ServiceInfo := r.(startType := FBUS_SERVICE_START_ON_REQUEST, lifeCycle := FBUS_SERVICE_RUN_FOREVER);
            Reap([onRequest], r.pid) == ([onRequest.(status := FBUS_SERVICE_STOPED)], [])
    ensures var onLoad: ServiceInfo := r.(startType := FBUS_SERVICE_START_ON_LOAD, lifeCycle := 0);
            Reap([onLoad], r.pid) == ([onLoad.(status := FBUS_SERVICE_STARTING)], [Launch(CString(r.exec))])
  {
    hide CString;
    var a: ServiceInfo := r.(startType := FBUS_SERVICE_START_ON_REQUEST, lifeCycle := FBUS_SERVICE_RUN_FOREVER);
    var b: ServiceInfo := r.(startType := FBUS_SERVICE_START_ON_LOAD, lifeCycle := 0);
    assert FindPid([a], r.pid, 0) == Some(0) && FindPid([b], r.pid, 0) == Some(0);
    assert [a][0 := a.(status := FBUS_SERVICE_STOPED)] == [a.(status := FBUS_SERVICE_STOPED)];
    assert [b][0 := b.(status := FBUS_SERVICE_STARTING)] == [b.(status := FBUS_SERVICE_STARTING)];
  }

  /** check_children: `pids` are what waitpid returns, one after the other. */
  function ReapAll(t: seq<ServiceInfo>, pids: seq<int32>): (seq<ServiceInfo>, seq<Effect>)
    decreases |pids|
  {
    if pids == [] then (t, [])
    else
      var (u, effects) := Reap(t, pids[0]);
      var (v, more) := ReapAll(u, pids[1..]);
      (v, effects + more)
  }

  /** A request, followed by check_children. */
  function Served(t: seq<ServiceInfo>, call: Call, pids: seq<int32>): Outcome
    requires TableOk(t)
  {
    var o := Direct(t, call);
    var (u, effects) := ReapAll(o.table, pids);
    Outcome(u, o.effects + effects, o.answer)
  }

  // ---------------------------------------------------------------- what every run keeps

  /** Nothing but pid, host and status of a service ever changes, and none comes or goes. */
  ghost predicate SameServices(t: seq<ServiceInfo>, u: seq<ServiceInfo>) {
    && |t| == |u|
    && forall k :: 0 <= k < |t| ==>
         && u[k].name == t[k].name && u[k].port == t[k].port && u[k].exec == t[k].exec
         && u[k].startType == t[k].startType && u[k].lifeCycle == t[k].lifeCycle
         && u[k].startTime == t[k].startTime
  }

  lemma DirectKeepsServices(t: seq<ServiceInfo>, call: Call)
    requires TableOk(t)
    ensures SameServices(t, Direct(t, call).table)
  {
    hide Find, CString, StrNCpy;
  }

  lemma {:induction false} ReapAllKeepsServices(t: seq<ServiceInfo>, pids: seq<int32>)
    ensures SameServices(t, ReapAll(t, pids).0)
    decreases |pids|
  {
    if pids != [] {
      hide CString, FindPid;
      ReapAllKeepsServices(Reap(t, pids[0]).0, pids[1..]);
    }
  }

  /** One request of a run, and the children that had ended by then. */
  datatype Round = Round(call: Call, pids: seq<int32>)

  function Run(t: seq<ServiceInfo>, rounds: seq<Round>): (u: seq<ServiceInfo>)
    requires TableOk(t)
    ensures TableOk(u)
    decreases |rounds|
  {
    if rounds == [] then t
    else
      DirectKeepsServices(t, rounds[0].call);
      ReapAllKeepsServices(Direct(t, rounds[0].call).table, rounds[0].pids);
      Run(Served(t, rounds[0].call, rounds[0].pids).table, rounds[1..])
  }

  /** Over every run the services stay the same, so a name is always found at the same port. */
  lemma {:induction false} RunKeepsServices(t: seq<ServiceInfo>, rounds: seq<Round>, name: seq<byte>)
    requires TableOk(t)
    ensures SameServices(t, Run(t, rounds)) && Find(Run(t, rounds), name) == Find(t, name)
    ensures PortsInOrder(t) ==> PortsInOrder(Run(t, rounds))
    decreases |rounds|
  {
    hide Find, CString, Direct, ReapAll;
    if rounds != [] {
      DirectKeepsServices(t, rounds[0].call);
      ReapAllKeepsServices(Direct(t, rounds[0].call).table, rounds[0].pids);
      RunKeepsServices(Served(t, rounds[0].call, rounds[0].pids).table, rounds[1..], name);
    }
    SameFind(t, Run(t, rounds), name);
  }

  lemma SameFind(t: seq<ServiceInfo>, u: seq<ServiceInfo>, name: seq<byte>)
    requires SameServices(t, u)
    ensures Find(u, name) == Find(t, name)
  {
    hide CString;
    var a, b := Find(t, name), Find(u, name);
    assert forall j :: 0 <= j < |t| ==> CString(u[j].name) == CString(t[j].name);
  }

  // ---------------------------------------------------------------- requests undo each other

  /**
   A process that registers a service can take it back exactly if its host name fits the record:
   a longer one is cut off when it is stored and no longer matches.
   */
  lemma UnregisterAfterRegister(t: seq<ServiceInfo>, name: seq<byte>, host: seq<byte>, pid: int32)
    requires TableOk(t) && Find(t, name).Some? && 0 !in host
    ensures var k, r := Find(t, name).value, Register(t, name, host, pid);
            var u := Unregister(r.table, name, host, pid);
            && r.answer.ret == RET_OK && r.table[k].status == FBUS_SERVICE_STARTED
            && (u.answer.ret == RET_OK <==> |host| < NAME_SIZE)
            && u.table[k].status == (if |host| < NAME_SIZE then FBUS_SERVICE_STOPED else FBUS_SERVICE_STARTED)
  {
    hide CString, Find, StrNCpy;
    var k, r := Find(t, name).value, Register(t, name, host, pid);
    assert SameServices(t, r.table);
    SameFind(t, r.table, name);
    CopiedString(t[k].host, host, NAME_SIZE - 1);
  }

  // ---------------------------------------------------------------- on the wire

  /** The request code the daemon switches on. */
  function Code(call: Call): int32 {
    match call
    case GetCall(_) => FBUS_SERVICE_MANAGER_REQ_GET
    case GetNrCall => FBUS_SERVICE_MANAGER_REQ_GET_NR
    case StopCall(_) => FBUS_SERVICE_MANAGER_REQ_STOP
    case StartCall(_) => FBUS_SERVICE_MANAGER_REQ_START
    case QueryCall(_) => FBUS_SERVICE_MANAGER_REQ_QUERY
    case RegisterCall(_, _, _) => FBUS_SERVICE_MANAGER_REQ_REGISTER
    case UnregisterCall(_, _, _) => FBUS_SERVICE_MANAGER_REQ_UNREGISTER
  }

  function Arguments(call: Call): seq<Value> {
    match call
    case GetCall(i) => [IntV(i)]
    case GetNrCall => []
    case StopCall(name) => [StringV(name)]
    case StartCall(name) => [StringV(name)]
    case QueryCall(name) => [StringV(name)]
    case RegisterCall(name, host, pid) => [StringV(name), StringV(host), IntV(pid)]
    case UnregisterCall(name, host, pid) => [StringV(name), StringV(host), IntV(pid)]
  }

  /** The values in a request. */
  function Marshal(call: Call): seq<Value> {
    [IntV(Code(call))] + Arguments(call)
  }

  /** The values in the answer to `call`. */
  function Reply(answer: Answer): seq<Value>
    requires answer.info.Some? ==> RecordOk(answer.info.value)
  {
    [IntV(answer.ret)]
      + (if answer.nr.Some? then [IntV(answer.nr.value)] else [])
      + (if answer.info.Some? then [DataV(Pack(answer.info.value))] else [])
  }

  /** The order in which a client writes the values of a request. */
  lemma MarshalSteps(call: Call)
    ensures var head, args := [IntV(Code(call))], Arguments(call);
            && (|args| == 0 ==> Marshal(call) == head)
            && (|args| == 1 ==> Marshal(call) == head + [args[0]])
            && (|args| == 3 ==> Marshal(call) == head + [args[0]] + [args[1]] + [args[2]])
  {
  }

  /** What stands behind the return code. */
  lemma ReplyTail(a: Answer)
    requires a.info.Some? ==> RecordOk(a.info.value) && a.nr.None?
    ensures Reply(a) != [] && Reply(a)[0] == IntV(a.ret)
    ensures a.nr.Some? ==> Reply(a)[1..] == [IntV(a.nr.value)]
    ensures a.info.Some? ==> Reply(a)[1..] == [DataV(Pack(a.info.value))]
  {
    hide Pack;
  }

  function TotalSize(vs: seq<Value>): nat {
    if vs == [] then 0 else Size(vs[0]) + TotalSize(vs[1..])
  }

  /** C strings that the parcel's int size can hold. */
  predicate CallOk(call: Call) {
    && (forall k :: 0 <= k < |Marshal(call)| ==> ValueOk(Marshal(call)[k]))
    && TotalSize(Marshal(call)) < 0x8000_0000
  }

  lemma ArgumentsOk(call: Call)
    requires CallOk(call)
    ensures forall k :: 0 <= k < |Arguments(call)| ==> ValueOk(Arguments(call)[k])
  {
    forall k | 0 <= k < |Arguments(call)|
      ensures ValueOk(Arguments(call)[k])
    {
      assert Marshal(call)[k + 1] == Arguments(call)[k];
    }
  }

  lemma {:induction false} HoldsSize(s: seq<byte>, i: nat, j: nat, vs: seq<Value>)
    requires Holds(s, i, j, vs)
    ensures j == i + TotalSize(vs)
    decreases |vs|
  {
    if vs != [] {
      hide HoldsAt, Size;
      HoldsSize(s, i + Size(vs[0]), j, vs[1..]);
    }
  }

  /** Different requests never look alike on the wire. */
  lemma MarshalInjective(a: Call, b: Call)
    requires Marshal(a) == Marshal(b)
    ensures a == b
  {
    assert Marshal(a)[1..] == Arguments(a) && Marshal(b)[1..] == Arguments(b);
    assert Marshal(a)[0] == IntV(Code(a)) && Marshal(b)[0] == IntV(Code(b));
    var x, y := Arguments(a), Arguments(b);
    if |x| == 1 {
      assert x[0] == y[0];
    } else if |x| == 3 {
      assert x[0] == y[0] && x[1] == y[1] && x[2] == y[2];
    }
  }

  /** Answers are short, and carry a record only with RET_OK. */
  lemma AnswerShape(t: seq<ServiceInfo>, call: Call, pids: seq<int32>)
    requires TableOk(t)
    ensures var a := Served(t, call, pids).answer;
            && (a.info.Some? ==> RecordOk(a.info.value) && a.nr.None? && a.ret == RET_OK)
            && (a.nr.Some? ==> a.ret == RET_OK)
            && (a.ret == RET_OK ==> (a.nr.Some? <==> call.GetNrCall?))
            && (a.ret == RET_OK ==> (a.info.Some? <==> call.GetCall? || call.QueryCall? || call.RegisterCall?))
  {
    hide CString, Find, StrNCpy, ReapAll;
  }
}
