/**
 The life of services under requests and ending processes, over every run of the daemon
 (fbus/fbus_service_manager_daemon.c): what each request does, when programs are launched and
 processes terminated, and what is answered.
 */
module ServiceLife {
  import opened Bytes
  import opened ServiceTable
  import opened ServiceCalls

  /** Service `k` is the first one with that name. */
  ghost predicate FirstNamed(t: seq<ServiceInfo>, name: seq<byte>, k: nat) {
    k < |t| && CString(t[k].name) == name && forall j :: 0 <= j < k ==> CString(t[j].name) != name
  }

  /** Service `k` is the first one run by that process. */
  ghost predicate FirstRunBy(t: seq<ServiceInfo>, pid: int32, k: nat) {
    k < |t| && t[k].pid == pid && forall j :: 0 <= j < k ==> t[j].pid != pid
  }

  lemma FindIsFirst(t: seq<ServiceInfo>, name: seq<byte>)
    ensures forall k: nat :: FirstNamed(t, name, k) <==> Find(t, name) == Some(k)
  {
    hide CString;
  }

  lemma FindPidIsFirst(t: seq<ServiceInfo>, pid: int32)
    ensures forall k: nat :: FirstRunBy(t, pid, k) <==> FindPid(t, pid, 0) == Some(k)
  {
  }

  // ---------------------------------------------------------------- what happens to a service

  /** What the daemon's table is exposed to. */
  datatype Step = Asked(call: Call) | Ended(pid: int32)

  ghost function Next(t: seq<ServiceInfo>, x: Step): (r: (seq<ServiceInfo>, seq<Effect>))
    requires TableOk(t)
    ensures TableOk(r.0) && SameServices(t, r.0)
  {
    match x
    case Asked(call) =>
      DirectKeepsServices(t, call);
      (Direct(t, call).table, Direct(t, call).effects)
    case Ended(pid) =>
      ReapKeepsServices(t, pid);
      Reap(t, pid)
  }

  lemma ReapKeepsServices(t: seq<ServiceInfo>, pid: int32)
    ensures SameServices(t, Reap(t, pid).0)
  {
    hide CString, FindPid;
  }

  /** The step starts the program of service `k`: it was stopped and is asked for, or it is to be restarted. */
  ghost predicate Launches(t: seq<ServiceInfo>, x: Step, k: nat) {
    match x
    case Asked(StartCall(name)) => FirstNamed(t, name, k) && t[k].status == FBUS_SERVICE_STOPED
    case Ended(pid) => FirstRunBy(t, pid, k) && t[k].startType == FBUS_SERVICE_START_ON_LOAD
    case _ => false
  }

  /** The step asks its process to end: it had registered and is to be stopped. */
  ghost predicate Terminates(t: seq<ServiceInfo>, x: Step, k: nat) {
    match x
    case Asked(StopCall(name)) => FirstNamed(t, name, k) && t[k].status == FBUS_SERVICE_STARTED
    case _ => false
  }

  /** Its process registers it. */
  ghost predicate Registers(t: seq<ServiceInfo>, x: Step, k: nat) {
    match x
    case Asked(RegisterCall(name, _, _)) => FirstNamed(t, name, k)
    case _ => false
  }

  /** It is stopped: its process takes it back, from the same host, or ends without being restarted. */
  ghost predicate Stops(t: seq<ServiceInfo>, x: Step, k: nat) {
    match x
    case Asked(UnregisterCall(name, host, pid)) =>
      FirstNamed(t, name, k) && t[k].pid == pid && CString(t[k].host) == host
    case Ended(pid) => FirstRunBy(t, pid, k) && t[k].startType != FBUS_SERVICE_START_ON_LOAD
    case _ => false
  }

  /** These four are all that happens to the status of a service. */
  lemma StatusChanges(t: seq<ServiceInfo>, x: Step, k: nat)
    requires TableOk(t) && k < |t|
    ensures Next(t, x).0[k].status
         == if Launches(t, x, k) then FBUS_SERVICE_STARTING
            else if Terminates(t, x, k) then FBUS_SERVICE_STOPING
            else if Registers(t, x, k) then FBUS_SERVICE_STARTED
            else if Stops(t, x, k) then FBUS_SERVICE_STOPED
            else t[k].status
    ensures Next(t, x).0[k].pid == if Registers(t, x, k) then x.call.pid else t[k].pid
  {
    hide CString, Find, FindPid, StrNCpy, FirstNamed, FirstRunBy;
    match x
    case Asked(call) =>
      if call.StartCall? || call.StopCall? || call.RegisterCall? || call.UnregisterCall? || call.QueryCall? {
        FindIsFirst(t, call.name);
      }
    case Ended(pid) => FindPidIsFirst(t, pid);
  }

  /** A program is launched, or a process told to end, exactly then; nothing else is done to processes. */
  lemma EffectsAre(t: seq<ServiceInfo>, x: Step)
    requires TableOk(t)
    ensures forall k: nat :: Launches(t, x, k) ==> k < |t| && Next(t, x).1 == [Launch(CString(t[k].exec))]
    ensures forall k: nat :: Terminates(t, x, k) ==> k < |t| && Next(t, x).1 == [Terminate(t[k].pid)]
    ensures (forall k: nat :: !Launches(t, x, k) && !Terminates(t, x, k)) ==> Next(t, x).1 == []
  {
    hide CString, Find, FindPid, StrNCpy;
    match x
    case Asked(call) =>
      if call.StartCall? || call.StopCall? || call.RegisterCall? || call.UnregisterCall? || call.QueryCall? {
        FindIsFirst(t, call.name);
        var f := Find(t, call.name);
        assert f.Some? ==> FirstNamed(t, call.name, f.value);
      }
    case Ended(pid) =>
      FindPidIsFirst(t, pid);
      var f := FindPid(t, pid, 0);
      assert f.Some? ==> FirstRunBy(t, pid, f.value);
  }

  // ---------------------------------------------------------------- what is answered

  /** The answers.  Get, GetNr and Query change nothing. */
  lemma AnswersAre(t: seq<ServiceInfo>, call: Call)
    requires TableOk(t)
    ensures var o := Direct(t, call);
            && (call.GetNrCall? ==> o == Outcome(t, [], Answer(RET_OK, Some(|t|), None)))
            && (call.GetCall? ==>
                  o == Outcome(t, [], if 0 <= call.index < |t| then Answer(RET_OK, None, Some(t[call.index]))
                                      else Answer(RET_FAIL, None, None)))
  {
  }

  lemma NamedAnswersAre(t: seq<ServiceInfo>, call: Call)
    requires TableOk(t) && !call.GetNrCall? && !call.GetCall?
    ensures (forall k: nat :: !FirstNamed(t, call.name, k)) ==>
              Direct(t, call) == Outcome(t, [], Answer(RET_NOT_FOUND, None, None))
    ensures forall k: nat :: FirstNamed(t, call.name, k) ==>
              && k < |t| && k < |Direct(t, call).table|
              && (call.QueryCall? ==> Direct(t, call) == Outcome(t, [], Answer(RET_OK, None, Some(t[k]))))
              && (call.StartCall? || call.StopCall? ==> Direct(t, call).answer == Answer(RET_OK, None, None))
              && (call.RegisterCall? ==> Direct(t, call).answer == Answer(RET_OK, None, Some(Direct(t, call).table[k])))
              && (call.UnregisterCall? ==>
                    Direct(t, call).answer.ret == if Stops(t, Asked(call), k) then RET_OK else RET_FAIL)
  {
    hide CString, Find, StrNCpy;
    FindIsFirst(t, call.name);
    var f := Find(t, call.name);
    assert f.Some? ==> FirstNamed(t, call.name, f.value);
  }

  /** A registration keeps the host, or its first 31 characters, beside process and status; the rest stays. */
  lemma RegisteredMeans(t: seq<ServiceInfo>, name: seq<byte>, host: seq<byte>, pid: int32, k: nat)
    requires TableOk(t) && FirstNamed(t, name, k) && 0 !in host
    ensures var r := Direct(t, RegisterCall(name, host, pid)).table;
            && |r| == |t| && r == t[k := r[k]]
            && CString(r[k].host) == (if |host| < 32 then host else host[..31])
            && r[k] == t[k].(pid := pid, status := FBUS_SERVICE_STARTED, host := r[k].host)
  {
    hide CString, Find, StrNCpy;
    FindIsFirst(t, name);
    CopiedString(t[k].host, host, NAME_SIZE - 1);
    assert host[..|host|] == host;
  }

  // ---------------------------------------------------------------- over whole runs

  ghost function After(t: seq<ServiceInfo>, xs: seq<Step>): (u: seq<ServiceInfo>)
    requires TableOk(t)
    ensures TableOk(u) && SameServices(t, u)
    decreases |xs|
  {
    if xs == [] then t else After(Next(t, xs[0]).0, xs[1..])
  }

  /** At no step of the run is service `k` stopped. */
  ghost predicate NeverStopped(t: seq<ServiceInfo>, xs: seq<Step>, k: nat)
    requires TableOk(t)
    decreases |xs|
  {
    xs != [] ==> !Stops(t, xs[0], k) && NeverStopped(Next(t, xs[0]).0, xs[1..], k)
  }

  /** No request of the run launches it. */
  ghost predicate NeverAskedFor(t: seq<ServiceInfo>, xs: seq<Step>, k: nat)
    requires TableOk(t)
    decreases |xs|
  {
    xs != [] ==> !(xs[0].Asked? && Launches(t, xs[0], k)) && NeverAskedFor(Next(t, xs[0]).0, xs[1..], k)
  }

  /**
   Once launched, a service is not launched again by any request before its process has taken it
   back or has ended.
   */
  lemma {:induction false} NotLaunchedTwice(t: seq<ServiceInfo>, xs: seq<Step>, k: nat)
    requires TableOk(t) && k < |t| && t[k].status != FBUS_SERVICE_STOPED && NeverStopped(t, xs, k)
    ensures NeverAskedFor(t, xs, k) && After(t, xs)[k].status != FBUS_SERVICE_STOPED
    decreases |xs|
  {
    hide Next;
    if xs != [] {
      StatusChanges(t, xs[0], k);
      NotLaunchedTwice(Next(t, xs[0]).0, xs[1..], k);
    }
  }

  /** In particular after the request that launched it. */
  lemma LaunchedOnce(t: seq<ServiceInfo>, name: seq<byte>, xs: seq<Step>, k: nat)
    requires TableOk(t) && Launches(t, Asked(StartCall(name)), k)
    requires NeverStopped(Next(t, Asked(StartCall(name))).0, xs, k)
    ensures Next(t, Asked(StartCall(name))).1 == [Launch(CString(t[k].exec))]
    ensures NeverAskedFor(Next(t, Asked(StartCall(name))).0, xs, k)
  {
    hide Next, CString;
    StatusChanges(t, Asked(StartCall(name)), k);
    EffectsAre(t, Asked(StartCall(name)));
    NotLaunchedTwice(Next(t, Asked(StartCall(name))).0, xs, k);
  }

  /** A request served by the daemon is such a run: the request, and then the processes that have ended. */
  function StepsOf(pids: seq<int32>): seq<Step> {
    seq(|pids|, i requires 0 <= i < |pids| => Ended(pids[i]))
  }

  ghost function EffectsOf(t: seq<ServiceInfo>, xs: seq<Step>): seq<Effect>
    requires TableOk(t)
    decreases |xs|
  {
    if xs == [] then [] else Next(t, xs[0]).1 + EffectsOf(Next(t, xs[0]).0, xs[1..])
  }

  lemma {:induction false} EndedInOrder(t: seq<ServiceInfo>, pids: seq<int32>)
    requires TableOk(t)
    ensures ReapAll(t, pids) == (After(t, StepsOf(pids)), EffectsOf(t, StepsOf(pids)))
    decreases |pids|
  {
    hide Reap;
    if pids != [] {
      assert StepsOf(pids)[1..] == StepsOf(pids[1..]) && StepsOf(pids)[0] == Ended(pids[0]);
      EndedInOrder(Next(t, Ended(pids[0])).0, pids[1..]);
    }
  }

  lemma ServedInOrder(t: seq<ServiceInfo>, call: Call, pids: seq<int32>)
    requires TableOk(t)
    ensures var xs, o := [Asked(call)] + StepsOf(pids), Served(t, call, pids);
            o.table == After(t, xs) && o.effects == EffectsOf(t, xs) && o.answer == Direct(t, call).answer
  {
    hide Direct, Reap, ReapAll;
    var xs := [Asked(call)] + StepsOf(pids);
    assert xs[0] == Asked(call) && xs[1..] == StepsOf(pids);
    EndedInOrder(Next(t, Asked(call)).0, pids);
  }
}
