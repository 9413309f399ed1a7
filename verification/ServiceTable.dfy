/**
 The table of services the manager daemon keeps (fbus/fbus_service_infos.c), its records and the
 form in which they travel.
 */
module ServiceTable {
  import opened Bytes
  import opened ParcelFormat

  const FBUS_SERVICE_STOPED: int32 := 0
  const FBUS_SERVICE_STOPING: int32 := 1
  const FBUS_SERVICE_STARTED: int32 := 2
  const FBUS_SERVICE_STARTING: int32 := 3

  const FBUS_SERVICE_START_ON_LOAD: int32 := 1
  const FBUS_SERVICE_START_ON_REQUEST: int32 := 2

  const FBUS_SERVICE_RUN_FOREVER: int32 := 1

  const FBUS_SERVICE_MANAGER_PORT: int32 := 1978
  const FBUS_SERVICE_PORT_START: int32 := FBUS_SERVICE_MANAGER_PORT + 1

  /** "127.0.0.1" */
  const FBUS_LOCALHOST: seq<byte> := [49, 50, 55, 46, 48, 46, 48, 46, 49]

  const NAME_SIZE := 32
  const EXEC_SIZE := 261

  datatype Record = Record(
    pid: int32,
    port: int32,
    status: int32,
    host: seq<byte>,
    name: seq<byte>,
    startType: int32,
    lifeCycle: int32,
    startTime: seq<byte>,
    exec: seq<byte>)

  /** The char arrays have their declared sizes and end in a NUL, as a zeroed record filled by strncpy does. */
  predicate RecordOk(r: Record) {
    && |r.host| == |r.name| == NAME_SIZE && |r.startTime| == 8 && |r.exec| == EXEC_SIZE
    && r.host[NAME_SIZE - 1] == r.name[NAME_SIZE - 1] == r.exec[EXEC_SIZE - 1] == 0
  }

  function Zeros(n: nat): (s: seq<byte>)
    ensures |s| == n
  {
    seq(n, _ => 0)
  }

  type ServiceInfo = r: Record | RecordOk(r)
    witness Record(0, 0, 0, Zeros(NAME_SIZE), Zeros(NAME_SIZE), 0, 0, Zeros(8), Zeros(EXEC_SIZE))

  // ---------------------------------------------------------------- C strings in arrays

  /** strncpy: at most `n` characters, filled up with zeros; the bytes from `n` on stay. */
  function StrNCpy(old_: seq<byte>, text: seq<byte>, n: nat): (r: seq<byte>)
    requires n <= |old_|
    ensures |r| == |old_| && r[n..] == old_[n..]
  {
    if |text| <= n then text + Zeros(n - |text|) + old_[n..] else text[..n] + old_[n..]
  }

  /** What strncpy keeps of a C string. */
  lemma CopiedString(old_: seq<byte>, text: seq<byte>, n: nat)
    requires 0 !in text && n < |old_| && old_[n] == 0
    ensures CString(StrNCpy(old_, text, n)) == if |text| <= n then text else text[..n]
  {
    if |text| <= n {
      var rest := Zeros(n - |text|) + old_[n..];
      assert StrNCpy(old_, text, n) == text + rest;
      CStringOf(text, rest);
    } else {
      CStringOf(text[..n], old_[n..]);
    }
  }

  // ---------------------------------------------------------------- the record on the wire

  /** Two or three ints that lie next to each other. */
  function PackTwo(a: int32, b: int32): (s: seq<byte>)
    ensures |s| == 8
  {
    IntBytes(a) + IntBytes(b)
  }

  function PackThree(a: int32, b: int32, c: int32): (s: seq<byte>)
    ensures |s| == 12
  {
    PackTwo(a, b) + IntBytes(c)
  }

  /** The record in memory, field by field. */
  function Pack(r: ServiceInfo): (s: seq<byte>)
    ensures |s| == PACKED_SIZE
  {
    PackThree(r.pid, r.port, r.status) + r.host + r.name + PackTwo(r.startType, r.lifeCycle) + r.startTime + r.exec
  }

  const PACKED_SIZE := 353

  /** The record a client finds in the bytes it received. */
  function Unpack(s: seq<byte>): Record
    requires |s| == PACKED_SIZE
  {
    Record(IntAt(s, 0), IntAt(s, 4), IntAt(s, 8), s[12..44], s[44..76], IntAt(s, 76), IntAt(s, 80), s[84..92], s[92..])
  }

  lemma IntInside(pre: seq<byte>, v: int32, post: seq<byte>)
    ensures IntAt(pre + IntBytes(v) + post, |pre|) == v
  {
    hide IntBytes, IntAt;
    var s, t := pre + IntBytes(v) + post, IntBytes(v);
    forall k | 0 <= k < 4
      ensures s[|pre| + k] == t[k]
    {
    }
    IntRoundTrip(s, |pre|, v);
  }

  lemma TwoInside(pre: seq<byte>, a: int32, b: int32, post: seq<byte>)
    ensures var s := pre + PackTwo(a, b) + post;
            IntAt(s, |pre|) == a && IntAt(s, |pre| + 4) == b
  {
    hide IntBytes, IntAt;
    var s := pre + PackTwo(a, b) + post;
    assert s == pre + IntBytes(a) + (IntBytes(b) + post);
    IntInside(pre, a, IntBytes(b) + post);
    assert s == (pre + IntBytes(a)) + IntBytes(b) + post;
    IntInside(pre + IntBytes(a), b, post);
  }

  lemma ThreeInFront(a: int32, b: int32, c: int32, post: seq<byte>)
    ensures var s := PackThree(a, b, c) + post;
            IntAt(s, 0) == a && IntAt(s, 4) == b && IntAt(s, 8) == c
  {
    hide IntBytes, IntAt, PackTwo;
    var s := PackThree(a, b, c) + post;
    assert s == [] + PackTwo(a, b) + (IntBytes(c) + post);
    TwoInside([], a, b, IntBytes(c) + post);
    IntInside(PackTwo(a, b), c, post);
  }

  /** Records arrive as they were sent. */
  lemma UnpackPack(r: ServiceInfo)
    ensures Unpack(Pack(r)) == r
  {
    hide IntAt, PackTwo, PackThree;
    var s, head, kind := Pack(r), PackThree(r.pid, r.port, r.status), PackTwo(r.startType, r.lifeCycle);
    assert s == head + (r.host + r.name + kind + r.startTime + r.exec);
    ThreeInFront(r.pid, r.port, r.status, r.host + r.name + kind + r.startTime + r.exec);
    assert s == (head + r.host + r.name) + kind + (r.startTime + r.exec);
    TwoInside(head + r.host + r.name, r.startType, r.lifeCycle, r.startTime + r.exec);
  }

  // ---------------------------------------------------------------- the table

  predicate TableOk(t: seq<ServiceInfo>) {
    |t| < 0x7FFF_0000
  }

  /** The first service of that name. */
  function FindFrom(t: seq<ServiceInfo>, name: seq<byte>, i: nat): (k: Option<nat>)
    requires i <= |t|
    ensures k.Some? ==> i <= k.value < |t| && CString(t[k.value].name) == name
    ensures k.Some? ==> forall j :: i <= j < k.value ==> CString(t[j].name) != name
    ensures k.None? ==> forall j :: i <= j < |t| ==> CString(t[j].name) != name
    decreases |t| - i
  {
    if i == |t| then None
    else if CString(t[i].name) == name then Some(i)
    else FindFrom(t, name, i + 1)
  }

  function Find(t: seq<ServiceInfo>, name: seq<byte>): (k: Option<nat>)
    ensures k.Some? ==> k.value < |t| && CString(t[k.value].name) == name
    ensures k.Some? ==> forall j :: 0 <= j < k.value ==> CString(t[j].name) != name
    ensures k.None? ==> forall j :: 0 <= j < |t| ==> CString(t[j].name) != name
  {
    FindFrom(t, name, 0)
  }

  /** Services listen on consecutive ports. */
  predicate PortsInOrder(t: seq<ServiceInfo>) {
    forall i :: 0 <= i < |t| ==> t[i].port == FBUS_SERVICE_PORT_START + i
  }

  /** The record as fbus_service_infos_add stores it. */
  function Added(r: ServiceInfo, index: nat): ServiceInfo
    requires index < 0x7FFF_0000
  {
    r.(host := if r.host[0] == 0 then StrNCpy(r.host, FBUS_LOCALHOST, NAME_SIZE - 1) else r.host,
       port := FBUS_SERVICE_PORT_START + index)
  }

  /** Without a host the record gets 127.0.0.1, and a port of its own; nothing else changes. */
  lemma AddedMeans(r: ServiceInfo, index: nat)
    requires index < 0x7FFF_0000
    ensures CString(Added(r, index).host) == if CString(r.host) == [] then FBUS_LOCALHOST else CString(r.host)
    ensures Added(r, index).port == 1979 + index && Added(r, index).(host := r.host, port := r.port) == r
  {
    CopiedString(r.host, FBUS_LOCALHOST, NAME_SIZE - 1);
    hide StrNCpy;
  }

  class ServiceInfos {
    var port: int32
    var size: nat
    var infos: array<ServiceInfo>

    ghost predicate Valid()
      reads this
    {
      size <= infos.Length && size < 0x7FFF_0000 && port == FBUS_SERVICE_PORT_START
    }

    ghost function Table(): (t: seq<ServiceInfo>)
      requires Valid()
      reads this, infos
      ensures TableOk(t) && |t| == size
    {
      infos[..size]
    }

    /** fbus_service_infos_create */
    constructor (capacity: int)
      ensures Valid() && Table() == [] && fresh(infos) && infos.Length == if capacity < 5 then 5 else capacity
    {
      port, size := FBUS_SERVICE_PORT_START, 0;
      infos := new ServiceInfo[if capacity < 5 then 5 else capacity];
    }

    /** fbus_service_infos_find: the index stands for the pointer. */
    method FindIndex(name: seq<byte>) returns (k: Option<nat>)
      requires Valid()
      ensures k == Find(Table(), name)
    {
      var i := 0;
      while i < size
        invariant i <= size && Find(Table(), name) == FindFrom(Table(), name, i)
      {
        if CString(infos[i].name) == name {
          return Some(i);
        }
        i := i + 1;
      }
      return None;
    }

    /** fbus_service_infos_get: a negative index is a huge one. */
    method Get(index: int) returns (k: Option<nat>)
      requires Valid()
      ensures k == if 0 <= index < size then Some(index) else None
    {
      if 0 <= index < size {
        return Some(index);
      }
      return None;
    }

    /** fbus_service_infos_extend */
    method Extend(capacity: nat)
      requires Valid()
      modifies this`infos
      ensures Valid() && Table() == old(Table()) && capacity <= infos.Length
      ensures infos == old(infos) || fresh(infos)
    {
      if capacity > infos.Length {
        var larger := new ServiceInfo[capacity + capacity / 2];
        forall i | 0 <= i < infos.Length {
          larger[i] := infos[i];
        }
        infos := larger;
      }
    }

    /** fbus_service_infos_add; the caller's record gets host and port as well. */
    method Add(service: ServiceInfo) returns (written: ServiceInfo)
      requires Valid() && size + 1 < 0x7FFF_0000
      modifies this, infos
      ensures written == Added(service, old(size))
      ensures Valid() && Table() == old(Table()) + [written]
      ensures infos == old(infos) || fresh(infos)
      ensures old(PortsInOrder(Table())) ==> PortsInOrder(Table())
    {
      Extend(size + 1);
      written := Added(service, size);
      infos[size] := written;
      size := size + 1;
    }

    /** Writing through the pointer that find or get returned. */
    method Put(k: nat, info: ServiceInfo)
      requires Valid() && k < size
      modifies infos
      ensures Valid() && Table() == old(Table())[k := info]
    {
      infos[k] := info;
    }
  }
}
