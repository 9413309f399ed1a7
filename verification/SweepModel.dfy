/**
 One round of the main loop after select has returned: the scan that dispatches or removes sources
 (src/ftk_main_loop_select.c), with the state of the descriptors and the callbacks as parameters.
 */
module SweepModel {
  import opened Scheduler

  /**
   What the loop finds when it comes to a source: its descriptor (negative if it has none), whether
   that is in the two sets of select, whether the source's check says it is due, and what its
   dispatch function does and returns.
   */
  datatype Turn<S> = Turn(fd: int, readable: bool, error: bool, due: bool, acts: seq<Action<S>>, ok: bool)

  datatype Verdict = Drop | Run | Skip

  /** `ret` is what select returned. */
  function VerdictOf<S>(disable: nat, t: Turn<S>, ret: int): Verdict {
    if disable > 0 then Drop
    else if t.fd >= 0 && ret != 0 && ret > 0 && t.readable then Run
    else if t.fd >= 0 && ret != 0 && t.error then Drop
    else if t.due then Run
    else Skip
  }

  /** Code outside the scheduler; what it may not do it does not do. */
  function ActAll<S>(st: State<S>, acts: seq<Action<S>>): State<S>
    decreases |acts|
  {
    if acts == [] then st
    else ActAll(if Proper(st, acts[0]) then Act(st, acts[0]) else st, acts[1..])
  }

  lemma {:induction false} ActAllKeeps<S>(st: State<S>, acts: seq<Action<S>>)
    ensures ActAll(st, acts).table == st.table && ActAll(st, acts).need == st.need
    ensures Conserved(st) ==> Conserved(ActAll(st, acts))
    decreases |acts|
  {
    hide Conserved;
    if acts != [] {
      if Conserved(st) && Proper(st, acts[0]) {
        ActConserves(st, acts[0]);
      }
      ActAllKeeps(if Proper(st, acts[0]) then Act(st, acts[0]) else st, acts[1..]);
    }
  }

  /** ftk_source_dispatch: the primary source handles an event, any other one runs its callback. */
  ghost function DispatchOf<S>(st: State<S>, isPrimary: bool, t: Turn<S>, max: nat): (State<S>, bool)
    requires Conserved(st)
  {
    ConservedKnown(st);
    if !isPrimary then (ActAll(st, t.acts), t.ok)
    else if st.queue == [] then (st, false)
    else
      var u := PrimaryDispatch(st, max);
      (if st.queue[0].OtherEvent? then ActAll(u, t.acts) else u, true)
  }

  lemma EventChanges<S>(st: State<S>, max: nat)
    requires st.queue != [] && Known(st)
    ensures var u := PrimaryDispatch(st, max);
            (u.table == st.table && u.need == st.need) || (!st.queue[0].OtherEvent? && u.need == st.need + 1)
  {
    hide WithoutFirst, Known;
    match st.queue[0]
    case AddEvent(s) =>
    case RemoveEvent(s) =>
    case OtherEvent =>
  }

  lemma DispatchOfKeeps<S>(st: State<S>, isPrimary: bool, t: Turn<S>, max: nat)
    requires Conserved(st)
    ensures var (u, ok) := DispatchOf(st, isPrimary, t, max);
            && Conserved(u)
            && ((u.table == st.table && u.need == st.need) || (ok && u.need == st.need + 1))
  {
    ConservedKnown(st);
    hide Conserved, Known, PrimaryDispatch, ActAll;
    if !isPrimary {
      ActAllKeeps(st, t.acts);
    } else if st.queue != [] {
      DispatchConserves(st, max);
      EventChanges(st, max);
      ActAllKeeps(PrimaryDispatch(st, max), t.acts);
    }
  }

  /** The end of the scan, the sources it came to, and whether a pending refresh cut it short. */
  datatype Swept<S(==)> = Swept(st: State<S>, visited: seq<S>, cut: bool)

  /** One source's turn. */
  ghost function TurnOf<S>(st: State<S>, i: nat, t: Turn<S>, ret: int, max: nat, primary: S): (State<S>, nat)
    requires Conserved(st) && i < |st.table|
  {
    ConservedKnown(st);
    var s := st.table[i];
    match VerdictOf(st.srcs[s].disable, t, ret)
    case Drop =>
      RemoveConserves(st, s);
      (ManagerRemove(st, s), i)
    case Run =>
      var (u, ok) := DispatchOf(st, s == primary, t, max);
      DispatchOfKeeps(st, s == primary, t, max);
      RemoveConserves(u, s);
      if ok then (u, i + 1) else (ManagerRemove(u, s), i)
    case Skip => (st, i + 1)
  }

  /** A turn leaves the table alone and moves on, or it changes the table and asks for a refresh. */
  lemma TurnKeeps<S>(st: State<S>, i: nat, t: Turn<S>, ret: int, max: nat, primary: S)
    requires Conserved(st) && i < |st.table|
    ensures var (u, j) := TurnOf(st, i, t, ret, max, primary);
            && Conserved(u)
            && ((u.table == st.table && u.need == st.need && j == i + 1) || u.need == st.need + 1)
  {
    ConservedKnown(st);
    hide Conserved, Known, WithoutFirst, DispatchOf;
    var s := st.table[i];
    match VerdictOf(st.srcs[s].disable, t, ret)
    case Drop => RemoveConserves(st, s);
    case Run =>
      DispatchOfKeeps(st, s == primary, t, max);
      var (u, ok) := DispatchOf(st, s == primary, t, max);
      RemoveConserves(u, s);
    case Skip =>
  }

  /** The scan from index `i` on; `turns[k]` is the turn of the source at index `k`. */
  ghost function SweepFrom<S>(st: State<S>, i: nat, turns: seq<Turn<S>>, ret: int, max: nat, primary: S): Swept<S>
    requires Conserved(st) && (st.need == 0 ==> |st.table| <= |turns|)
    decreases if st.need > 0 then 0 else 1, |st.table| - i
  {
    if i >= |st.table| then Swept(st, [], false)
    else if st.need > 0 then Swept(st.(need := st.need - 1), [], true)
    else
      TurnKeeps(st, i, turns[i], ret, max, primary);
      var (u, j) := TurnOf(st, i, turns[i], ret, max, primary);
      var r := SweepFrom(u, j, turns, ret, max, primary);
      r.(visited := [st.table[i]] + r.visited)
  }

  lemma SweepUnfold<S>(st: State<S>, i: nat, turns: seq<Turn<S>>, ret: int, max: nat, primary: S)
    requires Conserved(st) && st.need == 0 && |st.table| <= |turns| && i < |st.table|
    ensures var (u, j) := TurnOf(st, i, turns[i], ret, max, primary);
            && Conserved(u) && (u.need == 0 ==> |u.table| <= |turns|)
            && var r := SweepFrom(u, j, turns, ret, max, primary);
            SweepFrom(st, i, turns, ret, max, primary) == r.(visited := [st.table[i]] + r.visited)
  {
    TurnKeeps(st, i, turns[i], ret, max, primary);
    hide Conserved, TurnOf;
  }

  lemma SweepEnds<S>(st: State<S>, i: nat, turns: seq<Turn<S>>, ret: int, max: nat, primary: S)
    requires Conserved(st) && (st.need == 0 ==> |st.table| <= |turns|) && i >= |st.table|
    ensures SweepFrom(st, i, turns, ret, max, primary).st == st
  {
    hide Conserved;
  }

  /** The two ways a scan goes on. */
  lemma SweepCases<S>(st: State<S>, i: nat, turns: seq<Turn<S>>, ret: int, max: nat, primary: S)
    requires Conserved(st) && (st.need == 0 ==> |st.table| <= |turns|) && i < |st.table|
    ensures st.need > 0 ==> SweepFrom(st, i, turns, ret, max, primary).st == st.(need := st.need - 1)
    ensures st.need == 0 ==>
              var (u, j) := TurnOf(st, i, turns[i], ret, max, primary);
              && Conserved(u) && (u.need == 0 ==> |u.table| <= |turns|)
              && SweepFrom(st, i, turns, ret, max, primary).st == SweepFrom(u, j, turns, ret, max, primary).st
  {
    if st.need == 0 {
      SweepUnfold(st, i, turns, ret, max, primary);
      hide Conserved, TurnOf, SweepFrom;
    }
  }

  /** The count of references is right after every scan. */
  lemma {:induction false} SweepConserves<S>(st: State<S>, i: nat, turns: seq<Turn<S>>, ret: int, max: nat, primary: S)
    requires Conserved(st) && (st.need == 0 ==> |st.table| <= |turns|)
    ensures Conserved(SweepFrom(st, i, turns, ret, max, primary).st)
    decreases if st.need > 0 then 0 else 1, |st.table| - i
  {
    if i < |st.table| && st.need == 0 {
      TurnKeeps(st, i, turns[i], ret, max, primary);
      var (u, j) := TurnOf(st, i, turns[i], ret, max, primary);
      hide Conserved, TurnOf;
      SweepConserves(u, j, turns, ret, max, primary);
    }
  }

  /** The scan `r` of the table `t` from `i` on went through it in order, up to the first change. */
  ghost predicate InOrder<S>(t: seq<S>, i: nat, r: Swept<S>)
    requires i <= |t|
  {
    && r.visited <= t[i..]
    && (r.visited == t[i..] || r.cut || r.st.need == 1)
    && (if r.cut then r.st.need == 0 else r.st.need <= 1)
    && (!r.cut && r.st.need == 0 ==> r.st.table == t)
  }

  lemma InOrderStep<S>(t: seq<S>, i: nat, r: Swept<S>)
    requires i < |t|
    ensures var longer := r.(visited := [t[i]] + r.visited);
            && (InOrder(t, i + 1, r) ==> InOrder(t, i, longer))
            && (r.visited == [] && (if r.cut then r.st.need == 0 else r.st.need == 1) ==> InOrder(t, i, longer))
  {
    assert t[i..] == [t[i]] + t[i + 1..];
  }

  lemma SweepStops<S>(st: State<S>, i: nat, turns: seq<Turn<S>>, ret: int, max: nat, primary: S)
    requires Conserved(st) && st.need == 1
    ensures var r := SweepFrom(st, i, turns, ret, max, primary);
            r.visited == [] && if r.cut then r.st.need == 0 else r.st.need == 1
  {
    hide Conserved;
  }

  /**
   Although sources are taken out of the table while it is scanned, no source is passed over or
   comes up twice: the scan visits the sources in the order in which they stood in the table when
   it began, and it stops early only after a change to the table, of which there is at most one.
   */
  lemma {:induction false} SweepVisitsInOrder<S>(
    st: State<S>, i: nat, turns: seq<Turn<S>>, ret: int, max: nat, primary: S)
    requires Conserved(st) && st.need == 0 && |st.table| <= |turns| && i <= |st.table|
    ensures InOrder(st.table, i, SweepFrom(st, i, turns, ret, max, primary))
    decreases |st.table| - i
  {
    if i < |st.table| {
      SweepUnfold(st, i, turns, ret, max, primary);
      TurnKeeps(st, i, turns[i], ret, max, primary);
      hide Conserved, TurnOf, SweepFrom, InOrder;
      var (u, j) := TurnOf(st, i, turns[i], ret, max, primary);
      InOrderStep(st.table, i, SweepFrom(u, j, turns, ret, max, primary));
      if u.need == 0 {
        SweepVisitsInOrder(u, j, turns, ret, max, primary);
      } else {
        SweepStops(u, j, turns, ret, max, primary);
      }
    }
  }

  /** A disabled source that the scan comes to is out of the table afterwards, one reference lighter. */
  lemma DisabledIsDropped<S>(st: State<S>, i: nat, t: Turn<S>, ret: int, max: nat, primary: S)
    requires Conserved(st) && i < |st.table| && st.table[i] in st.srcs && st.srcs[st.table[i]].disable > 0
    ensures var s, u := st.table[i], TurnOf(st, i, t, ret, max, primary).0;
            && multiset(u.table) == multiset(st.table) - multiset{s}
            && s in u.srcs && u.srcs[s].ref == st.srcs[s].ref - 1
  {
    RemoveConserves(st, st.table[i]);
    WithoutFirstCount(st.table, st.table[i]);
    hide Conserved, WithoutFirst;
  }

  // ---------------------------------------------------------------- what a turn does

  /** One occurrence of `s` is out of the table, with its reference, and a refresh is asked for. */
  ghost predicate TakenOut<S>(st: State<S>, s: S, u: State<S>) {
    && multiset(u.table) == multiset(st.table) - multiset{s} && |u.table| == |st.table| - 1
    && u.need == st.need + 1
    && u.queue == st.queue && u.outside == st.outside && u.lost == st.lost
    && u.srcs.Keys == st.srcs.Keys && s in st.srcs
    && u.srcs[s].ref == st.srcs[s].ref - 1 && !u.srcs[s].active && u.srcs[s].disable == st.srcs[s].disable
    && (u.srcs[s].gone <==> st.srcs[s].gone || u.srcs[s].ref == 0)
    && forall x :: x in st.srcs && x != s ==> u.srcs[x] == st.srcs[x]
  }

  /** The event at the head of the queue is gone, with its effect. */
  ghost predicate EventDone<S>(st: State<S>, max: nat, acts: seq<Action<S>>, u: State<S>)
    requires st.queue != []
  {
    var rest := st.(queue := st.queue[1..]);
    match st.queue[0]
    case AddEvent(x) =>
      && x in st.srcs
      && u == if |st.table| < max
              then rest.(table := st.table + [x], need := st.need + 1, srcs := st.srcs[x := st.srcs[x].(active := true)])
              else rest.(lost := st.lost + multiset{x})
    case RemoveEvent(x) => if x in st.table then TakenOut(rest, x, u) else u == rest.(need := st.need + 1)
    case OtherEvent => u == ActAll(rest, acts)
  }

  /**
   The turn of the source at index `i`: if it is disabled, or broken and not readable, it is taken
   out; otherwise it is dispatched if it is readable or due, and taken out if that fails; otherwise
   nothing happens.  The primary source's dispatch handles one event, and fails if there is none.
   */
  ghost predicate TurnDone<S>(
    st: State<S>, i: nat, t: Turn<S>, ret: int, max: nat, primary: S, u: State<S>, j: nat)
    requires i < |st.table|
  {
    var s := st.table[i];
    var readable := t.fd >= 0 && ret > 0 && t.readable;
    var broken := t.fd >= 0 && ret != 0 && t.error && !readable;
    && s in st.srcs
    && if st.srcs[s].disable > 0 || broken then TakenOut(st, s, u) && j == i
       else if !readable && !t.due then u == st && j == i + 1
       else if s != primary then
         if t.ok then u == ActAll(st, t.acts) && j == i + 1 else TakenOut(ActAll(st, t.acts), s, u) && j == i
       else if st.queue == [] then TakenOut(st, s, u) && j == i
       else EventDone(st, max, t.acts, u) && j == i + 1
  }

  lemma RemoveTakesOut<S>(st: State<S>, s: S)
    requires Conserved(st) && s in st.table
    ensures s in st.srcs && TakenOut(st, s, ManagerRemove(st, s))
  {
    RemoveConserves(st, s);
    WithoutFirstCount(st.table, s);
    ConservedKnown(st);
    TableClaim(st, s);
    hide Claims, WithoutFirst;
  }

  lemma DispatchDoesEvent<S>(st: State<S>, max: nat, acts: seq<Action<S>>)
    requires Conserved(st) && st.queue != []
    ensures Known(st)
    ensures var u := PrimaryDispatch(st, max);
            EventDone(st, max, acts, if st.queue[0].OtherEvent? then ActAll(u, acts) else u)
  {
    hide Conserved, ActAll, TakenOut, ManagerRemove, Known;
    ConservedKnown(st);
    match st.queue[0]
    case AddEvent(x) => AdditionDone(st, x, max, acts);
    case RemoveEvent(x) => RemovalDone(st, x, max, acts);
    case OtherEvent =>
  }

  lemma AdditionDone<S>(st: State<S>, x: S, max: nat, acts: seq<Action<S>>)
    requires st.queue != [] && Known(st) && st.queue[0] == AddEvent(x)
    ensures EventDone(st, max, acts, PrimaryDispatch(st, max))
  {
    hide ActAll, TakenOut;
  }

  lemma RemovalDone<S>(st: State<S>, x: S, max: nat, acts: seq<Action<S>>)
    requires Conserved(st) && st.queue != [] && Known(st) && st.queue[0] == RemoveEvent(x)
    ensures EventDone(st, max, acts, PrimaryDispatch(st, max))
  {
    hide Conserved, ActAll, TakenOut, WithoutFirst, Known;
    var rest := st.(queue := st.queue[1..]);
    DropEventConserves(st);
    if x in st.table {
      RemoveTakesOut(rest, x);
    }
  }

  lemma DispatchIsDone<S>(st: State<S>, isPrimary: bool, t: Turn<S>, max: nat)
    requires Conserved(st)
    ensures var r := DispatchOf(st, isPrimary, t, max);
            if !isPrimary then r == (ActAll(st, t.acts), t.ok)
            else if st.queue == [] then r == (st, false)
            else EventDone(st, max, t.acts, r.0) && r.1
  {
    hide Conserved, ActAll, EventDone, PrimaryDispatch, Known;
    if st.queue != [] {
      DispatchDoesEvent(st, max, t.acts);
    }
  }

  lemma DropTurn<S>(st: State<S>, i: nat, t: Turn<S>, ret: int, max: nat, primary: S)
    requires Conserved(st) && i < |st.table| && st.table[i] in st.srcs
    requires VerdictOf(st.srcs[st.table[i]].disable, t, ret) == Drop
    ensures TakenOut(st, st.table[i], TurnOf(st, i, t, ret, max, primary).0)
    ensures TurnOf(st, i, t, ret, max, primary).1 == i
  {
    hide Conserved, VerdictOf, TakenOut, ManagerRemove, DispatchOf;
    RemoveTakesOut(st, st.table[i]);
  }

  lemma RunTurn<S>(st: State<S>, i: nat, t: Turn<S>, ret: int, max: nat, primary: S)
    requires Conserved(st) && i < |st.table| && st.table[i] in st.srcs
    requires VerdictOf(st.srcs[st.table[i]].disable, t, ret) == Run
    ensures var s, r, d := st.table[i], TurnOf(st, i, t, ret, max, primary), DispatchOf(st, st.table[i] == primary, t, max);
            if d.1 then r == (d.0, i + 1) else s in d.0.table && TakenOut(d.0, s, r.0) && r.1 == i
  {
    hide Conserved, VerdictOf, TakenOut, ManagerRemove, DispatchOf;
    DispatchOfKeeps(st, st.table[i] == primary, t, max);
    var d := DispatchOf(st, st.table[i] == primary, t, max);
    if !d.1 {
      RemoveTakesOut(d.0, st.table[i]);
    }
  }

  lemma SkipTurn<S>(st: State<S>, i: nat, t: Turn<S>, ret: int, max: nat, primary: S)
    requires Conserved(st) && i < |st.table| && st.table[i] in st.srcs
    requires VerdictOf(st.srcs[st.table[i]].disable, t, ret) == Skip
    ensures TurnOf(st, i, t, ret, max, primary) == (st, i + 1)
  {
    hide Conserved, VerdictOf, ManagerRemove, DispatchOf;
  }

  /** Every turn is as described. */
  lemma TurnIsDone<S>(st: State<S>, i: nat, t: Turn<S>, ret: int, max: nat, primary: S)
    requires Conserved(st) && i < |st.table|
    ensures var r := TurnOf(st, i, t, ret, max, primary);
            TurnDone(st, i, t, ret, max, primary, r.0, r.1)
  {
    hide Conserved, ActAll, TakenOut, EventDone, DispatchOf, TurnOf;
    var s := st.table[i];
    assert s in st.table;
    RemoveTakesOut(st, s);
    match VerdictOf(st.srcs[s].disable, t, ret)
    case Drop => DropTurn(st, i, t, ret, max, primary);
    case Skip => SkipTurn(st, i, t, ret, max, primary);
    case Run =>
      RunTurn(st, i, t, ret, max, primary);
      DispatchIsDone(st, s == primary, t, max);
  }

  /** A callback does one thing after the other. */
  lemma {:induction false} ActAllInOrder<S>(st: State<S>, a: seq<Action<S>>, b: seq<Action<S>>)
    ensures ActAll(st, a + b) == ActAll(ActAll(st, a), b)
    decreases |a|
  {
    hide Act, Proper;
    if a == [] {
      assert a + b == b;
    } else {
      assert (a + b)[1..] == a[1..] + b;
      ActAllInOrder(if Proper(st, a[0]) then Act(st, a[0]) else st, a[1..], b);
    }
  }

  // ---------------------------------------------------------------- what a scan does

  ghost predicate CanTurn<S>(st: State<S>, i: nat, turns: seq<Turn<S>>, ret: int, max: nat, primary: S, u: State<S>) {
    i < |st.table| && i < |turns| && exists j :: TurnDone(st, i, turns[i], ret, max, primary, u, j)
  }

  /** The states a scan from index `i` on goes through, one turn after the other. */
  ghost predicate Scanned<S>(trace: seq<State<S>>, i: nat, turns: seq<Turn<S>>, ret: int, max: nat, primary: S) {
    |trace| <= 1 ||
    (CanTurn(trace[0], i, turns, ret, max, primary, trace[1]) && Scanned(trace[1..], i + 1, turns, ret, max, primary))
  }

  lemma ScannedStep<S>(st: State<S>, rest: seq<State<S>>, i: nat, j: nat, turns: seq<Turn<S>>, ret: int, max: nat, primary: S)
    requires i < |st.table| && i < |turns| && rest != []
    requires TurnDone(st, i, turns[i], ret, max, primary, rest[0], j)
    requires |rest| > 1 ==> Scanned(rest, i + 1, turns, ret, max, primary)
    ensures Scanned([st] + rest, i, turns, ret, max, primary)
  {
    hide TurnDone;
    var trace := [st] + rest;
    assert trace[1..] == rest && trace[1] == rest[0];
    assert CanTurn(st, i, turns, ret, max, primary, rest[0]);
  }

  /**
   Every source that the scan visits has had its turn, in the order of the table at the start, and
   the scan ends after the last of these turns; if it is cut short, the refresh it was cut short
   for is counted down.
   */
  lemma {:induction false} ScanTakesTurns<S>(
    st: State<S>, i: nat, turns: seq<Turn<S>>, ret: int, max: nat, primary: S) returns (trace: seq<State<S>>)
    requires Conserved(st) && st.need == 0 && |st.table| <= |turns| && i <= |st.table|
    ensures var r := SweepFrom(st, i, turns, ret, max, primary);
            && |trace| == |r.visited| + 1 && trace[0] == st
            && Scanned(trace, i, turns, ret, max, primary)
            && r.visited <= st.table[i..]
            && (var end := trace[|trace| - 1];
                if r.cut then end.need == 1 && r.st == end.(need := 0)
                else r.st == end && (r.visited == st.table[i..] || end.need == 1))
    decreases |st.table| - i
  {
    hide Conserved, TurnOf, TurnDone, SweepFrom, InOrder;
    trace := [st];
    if i == |st.table| {
      SweepEndsEmpty(st, i, turns, ret, max, primary);
    } else {
      SweepUnfold(st, i, turns, ret, max, primary);
      TurnKeeps(st, i, turns[i], ret, max, primary);
      TurnIsDone(st, i, turns[i], ret, max, primary);
      var r := TurnOf(st, i, turns[i], ret, max, primary);
      assert st.table[i..] == [st.table[i]] + st.table[i + 1..];
      var rest := [r.0];
      if r.0.need == 0 {
        rest := ScanTakesTurns(r.0, r.1, turns, ret, max, primary);
      } else {
        SweepStopsAt(r.0, r.1, turns, ret, max, primary);
      }
      ScannedStep(st, rest, i, r.1, turns, ret, max, primary);
      hide Scanned;
      trace := [st] + rest;
    }
  }

  lemma SweepEndsEmpty<S>(st: State<S>, i: nat, turns: seq<Turn<S>>, ret: int, max: nat, primary: S)
    requires Conserved(st) && st.need == 0 && |st.table| <= |turns| && i == |st.table|
    ensures SweepFrom(st, i, turns, ret, max, primary) == Swept(st, [], false)
  {
    hide Conserved;
  }

  lemma SweepStopsAt<S>(st: State<S>, i: nat, turns: seq<Turn<S>>, ret: int, max: nat, primary: S)
    requires Conserved(st) && st.need == 1
    ensures var r := SweepFrom(st, i, turns, ret, max, primary);
            r.visited == [] && if r.cut then r.st == st.(need := 0) else r.st == st
  {
    hide Conserved;
  }

  lemma {:induction false} ActAllQueues<S>(st: State<S>, acts: seq<Action<S>>)
    ensures st.queue <= ActAll(st, acts).queue
    decreases |acts|
  {
    if acts != [] {
      ActAllQueues(if Proper(st, acts[0]) then Act(st, acts[0]) else st, acts[1..]);
    }
  }

  /** A turn of another source that leaves the table alone only adds to the queue. */
  lemma OtherTurnQueues<S>(st: State<S>, i: nat, t: Turn<S>, ret: int, max: nat, primary: S, u: State<S>, j: nat)
    requires i < |st.table| && st.table[i] != primary && TurnDone(st, i, t, ret, max, primary, u, j)
    requires u.need == st.need
    ensures st.queue <= u.queue && u.table == st.table && j == i + 1
  {
    ActAllKeeps(st, t.acts);
    ActAllQueues(st, t.acts);
    hide ActAll, EventDone;
  }

  /**
   If the scan comes to the primary source, it does so with the events that were queued at the start
   still at the head of the queue, and the table as it was.
   */
  lemma {:induction false} PrimaryReached<S>(
    st: State<S>, i: nat, p: nat, turns: seq<Turn<S>>, ret: int, max: nat, primary: S) returns (v: State<S>)
    requires Conserved(st) && st.need == 0 && |st.table| <= |turns| && i <= p < |st.table|
    requires st.table[p] == primary && primary !in st.table[i..p]
    requires p - i < |SweepFrom(st, i, turns, ret, max, primary).visited|
    ensures Conserved(v) && v.need == 0 && v.table == st.table && st.queue <= v.queue
    ensures SweepFrom(v, p, turns, ret, max, primary).st == SweepFrom(st, i, turns, ret, max, primary).st
    decreases p - i
  {
    hide Conserved, TurnOf, TurnDone, SweepFrom;
    v := st;
    if i < p {
      SweepUnfold(st, i, turns, ret, max, primary);
      TurnKeeps(st, i, turns[i], ret, max, primary);
      TurnIsDone(st, i, turns[i], ret, max, primary);
      var r := TurnOf(st, i, turns[i], ret, max, primary);
      assert st.table[i..p][0] == st.table[i] && st.table[i + 1..p] == st.table[i..p][1..];
      if r.0.need == 0 {
        OtherTurnQueues(st, i, turns[i], ret, max, primary, r.0, r.1);
        v := PrimaryReached(r.0, r.1, p, turns, ret, max, primary);
      } else {
        SweepStopsAt(r.0, r.1, turns, ret, max, primary);
        assert false;
      }
    }
  }

  /** So a scan that comes to an enabled, readable primary source handles the first event queued at its start. */
  lemma ReadablePrimaryHandlesEvent<S>(
    st: State<S>, p: nat, turns: seq<Turn<S>>, ret: int, max: nat, primary: S) returns (v: State<S>, u: State<S>)
    requires Conserved(st) && st.need == 0 && |st.table| <= |turns| && p < |st.table|
    requires st.table[p] == primary && primary !in st.table[..p] && st.queue != []
    requires p < |SweepFrom(st, 0, turns, ret, max, primary).visited|
    requires turns[p].fd >= 0 && ret > 0 && turns[p].readable
    ensures v.table == st.table && st.queue <= v.queue && v.queue[0] == st.queue[0] && primary in v.srcs
    ensures if v.srcs[primary].disable > 0 then TakenOut(v, primary, u) else EventDone(v, max, turns[p].acts, u)
    ensures Conserved(u) && (u.need == 0 ==> |u.table| <= |turns|)
    ensures exists j :: SweepFrom(st, 0, turns, ret, max, primary).st == SweepFrom(u, j, turns, ret, max, primary).st
  {
    hide Conserved, TurnOf, SweepFrom, EventDone, TakenOut, ActAll;
    assert st.table[0..p] == st.table[..p];
    v := PrimaryReached(st, 0, p, turns, ret, max, primary);
    TurnIsDone(v, p, turns[p], ret, max, primary);
    SweepUnfold(v, p, turns, ret, max, primary);
    TurnKeeps(v, p, turns[p], ret, max, primary);
    var r := TurnOf(v, p, turns[p], ret, max, primary);
    u := r.0;
    assert SweepFrom(st, 0, turns, ret, max, primary).st == SweepFrom(u, r.1, turns, ret, max, primary).st;
  }

  // ---------------------------------------------------------------- requests and turns

  /** A source whose removal has been asked for is taken out by its next turn, whatever else that finds. */
  lemma WithdrawnIsTakenOut<S>(st: State<S>, s: S, i: nat, t: Turn<S>, ret: int, max: nat, primary: S)
    requires Conserved(st) && Proper(st, Withdraw(s)) && i < |st.table| && st.table[i] == s
    ensures Conserved(Act(st, Withdraw(s)))
    ensures TakenOut(Act(st, Withdraw(s)), s, TurnOf(Act(st, Withdraw(s)), i, t, ret, max, primary).0)
  {
    ActConserves(st, Withdraw(s));
    TurnIsDone(Act(st, Withdraw(s)), i, t, ret, max, primary);
    hide Conserved, TurnOf, TakenOut, EventDone;
  }

  /** Handing it over again makes up for one such request. */
  lemma HandedOverAgain<S>(st: State<S>, s: S)
    requires Proper(st, Withdraw(s)) && st.outside[s] > 0
    ensures Proper(Act(st, Withdraw(s)), HandOver(s))
    ensures var u := Act(Act(st, Withdraw(s)), HandOver(s));
            && u.srcs[s].disable == st.srcs[s].disable && u.srcs[s].active
            && u.queue == st.queue + [RemoveEvent(s), AddEvent(s)]
  {
  }
}
