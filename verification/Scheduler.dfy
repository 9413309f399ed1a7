/**
 The life of event sources as a state machine: the table of managed sources, the queue of events
 that ask for changes to it, and the reference counts (src/ftk_source.h, src/ftk_sources_manager.c,
 src/ftk_main_loop.c, src/ftk_source_primary.c, src/ftk_main_loop_select.c).
 */
module Scheduler {
  /** FtkSource: `gone` says that its destroy function has been called. */
  datatype Src = Src(ref: int, active: bool, disable: nat, gone: bool)

  datatype Event<S> = AddEvent(s: S) | RemoveEvent(s: S) | OtherEvent

  /**
   `need` is the refresh counter.  The program keeps no record of the last two: `outside` are the
   references that code outside the scheduler holds, `lost` those that were handed over but found
   the table full.
   */
  datatype State<S(==)> = State(
    srcs: map<S, Src>,
    table: seq<S>,
    need: nat,
    queue: seq<Event<S>>,
    outside: multiset<S>,
    lost: multiset<S>)

  // ---------------------------------------------------------------- tables and queues

  /** `t` without the first `s`. */
  function WithoutFirst<S(==)>(t: seq<S>, s: S): (r: seq<S>)
    ensures s !in t ==> r == t
  {
    if t == [] then []
    else if t[0] == s then t[1..]
    else [t[0]] + WithoutFirst(t[1..], s)
  }

  lemma {:induction false} WithoutFirstCount<S>(t: seq<S>, s: S)
    ensures multiset(WithoutFirst(t, s)) == multiset(t) - multiset{s}
    ensures |WithoutFirst(t, s)| == if s in t then |t| - 1 else |t|
  {
    if t != [] {
      HeadCount(t);
      if t[0] != s {
        var rest := WithoutFirst(t[1..], s);
        WithoutFirstCount(t[1..], s);
        assert multiset([t[0]] + rest) == multiset{t[0]} + multiset(rest);
      }
    }
  }

  lemma HeadCount<S>(t: seq<S>)
    requires t != []
    ensures multiset(t) == multiset{t[0]} + multiset(t[1..])
  {
    assert t == [t[0]] + t[1..];
  }

  /** The references that are on their way into the table. */
  function Pending<S>(q: seq<Event<S>>): multiset<S> {
    if q == [] then multiset{}
    else (if q[0].AddEvent? then multiset{q[0].s} else multiset{}) + Pending(q[1..])
  }

  lemma {:induction false} PendingAppend<S>(q: seq<Event<S>>, e: Event<S>)
    ensures Pending(q + [e]) == Pending(q) + if e.AddEvent? then multiset{e.s} else multiset{}
  {
    if q == [] {
      assert q + [e] == [e];
      assert [e][1..] == [];
    } else {
      assert (q + [e])[1..] == q[1..] + [e];
      PendingAppend(q[1..], e);
    }
  }

  // ---------------------------------------------------------------- what sources go through

  /** ftk_source_unref */
  function Unreffed(x: Src): Src {
    x.(ref := x.ref - 1, gone := x.gone || x.ref == 1)
  }

  /** ftk_source_enable */
  function Enabled(x: Src): Src {
    x.(disable := if x.disable > 0 then x.disable - 1 else 0)
  }

  /** What code outside the scheduler does, also from within callbacks. */
  datatype Action<S> =
    | Create(s: S)
    | Retain(s: S)
    | Release(s: S)
    | HandOver(s: S)
    | Withdraw(s: S)
    | Post

  /**
   Proper use: only live sources are touched, and whoever gives a reference away, to the main loop
   or for good, has one.  A new source may get the address of one that has been destroyed.
   */
  predicate Proper<S>(st: State<S>, a: Action<S>) {
    match a
    case Create(s) => s !in st.srcs || st.srcs[s].gone
    case Retain(s) => s in st.srcs && !st.srcs[s].gone
    case Release(s) => s in st.srcs && st.outside[s] > 0
    case HandOver(s) => s in st.srcs && st.outside[s] > 0
    case Withdraw(s) => s in st.srcs && !st.srcs[s].gone
    case Post => true
  }

  function Act<S>(st: State<S>, a: Action<S>): State<S>
    requires Proper(st, a)
  {
    match a
    case Create(s) =>
      st.(srcs := st.srcs[s := Src(1, false, 0, false)], outside := st.outside + multiset{s})
    case Retain(s) =>
      st.(srcs := st.srcs[s := st.srcs[s].(ref := st.srcs[s].ref + 1)], outside := st.outside + multiset{s})
    case Release(s) =>
      st.(srcs := st.srcs[s := Unreffed(st.srcs[s])], outside := st.outside - multiset{s})
    case HandOver(s) =>
      st.(srcs := st.srcs[s := Enabled(st.srcs[s].(active := true))],
          queue := st.queue + [AddEvent(s)],
          outside := st.outside - multiset{s})
    case Withdraw(s) =>
      st.(srcs := st.srcs[s := st.srcs[s].(disable := st.srcs[s].disable + 1)],
          queue := st.queue + [RemoveEvent(s)])
    case Post => st.(queue := st.queue + [OtherEvent])
  }

  /** ftk_sources_manager_add; a full table turns the source away. */
  function ManagerAdd<S>(st: State<S>, s: S, max: nat): State<S>
    requires s in st.srcs
  {
    if |st.table| < max
    then st.(srcs := st.srcs[s := st.srcs[s].(active := true)], table := st.table + [s], need := st.need + 1)
    else st.(lost := st.lost + multiset{s})
  }

  /** ftk_sources_manager_remove */
  function ManagerRemove<S>(st: State<S>, s: S): State<S>
    requires s in st.table ==> s in st.srcs
  {
    if s in st.table
    then st.(srcs := st.srcs[s := Unreffed(st.srcs[s].(active := false))],
             table := WithoutFirst(st.table, s), need := st.need + 1)
    else st.(need := st.need + 1)
  }

  /** The primary source's dispatch takes one event off the queue. */
  function PrimaryDispatch<S>(st: State<S>, max: nat): State<S>
    requires st.queue != [] && Known(st)
  {
    var e, rest := st.queue[0], st.(queue := st.queue[1..]);
    match e
    case AddEvent(s) => ManagerAdd(rest, s, max)
    case RemoveEvent(s) => ManagerRemove(rest, s)
    case OtherEvent => rest
  }

  /** The sources the next event and the table refer to exist. */
  predicate Known<S>(st: State<S>) {
    && (forall s <- st.table :: s in st.srcs)
    && (st.queue != [] && st.queue[0].AddEvent? ==> st.queue[0].s in st.srcs)
  }

  // ---------------------------------------------------------------- conservation

  /** All references that are accounted for. */
  ghost function Claims<S>(st: State<S>): multiset<S> {
    st.outside + multiset(st.table) + Pending(st.queue) + st.lost
  }

  /** The count is right, and the source is destroyed when it reaches zero and not before. */
  ghost predicate Balanced(x: Src, held: nat) {
    x.ref == held && (x.gone <==> held == 0)
  }

  /**
   Every reference is held outside, or by a place in the table, or by an event under way, or was
   turned away by a full table.
   */
  ghost predicate Conserved<S>(st: State<S>) {
    Accounted(st.srcs, Claims(st))
  }

  ghost predicate Accounted<S>(srcs: map<S, Src>, claims: multiset<S>) {
    && (forall s :: s in claims ==> s in srcs)
    && (forall s :: s in srcs ==> Balanced(srcs[s], claims[s]))
  }

  /** A claim and a reference more. */
  lemma Gain<S>(srcs: map<S, Src>, claims: multiset<S>, s: S, x: Src)
    requires Accounted(srcs, claims) && x.ref == claims[s] + 1 && !x.gone
    ensures Accounted(srcs[s := x], claims + multiset{s})
  {
  }

  /** A claim and a reference less. */
  lemma Lose<S>(srcs: map<S, Src>, claims: multiset<S>, s: S, x: Src)
    requires Accounted(srcs, claims) && s in claims && x.ref == claims[s] - 1 && (x.gone <==> x.ref == 0)
    ensures Accounted(srcs[s := x], claims - multiset{s})
  {
  }

  /** The other fields do not matter. */
  lemma Keep<S>(srcs: map<S, Src>, claims: multiset<S>, s: S, x: Src)
    requires Accounted(srcs, claims) && s in srcs && x.ref == srcs[s].ref && x.gone == srcs[s].gone
    ensures Accounted(srcs[s := x], claims)
  {
  }

  lemma InTable<S>(t: seq<S>, s: S)
    ensures s in t <==> multiset(t)[s] > 0
  {
    assert s in t <==> s in multiset(t);
  }

  /** Exactly what somebody has a claim on has not been destroyed. */
  lemma LiveIffClaimed<S>(st: State<S>, s: S)
    requires Conserved(st)
    ensures s in st.srcs && !st.srcs[s].gone <==>
              s in st.table || s in Pending(st.queue) || s in st.outside || s in st.lost
  {
    hide Pending;
    InTable(st.table, s);
    assert Claims(st)[s] > 0 <==> s in Claims(st);
  }

  lemma ConservedKnown<S>(st: State<S>)
    requires Conserved(st)
    ensures Known(st)
  {
    forall s | s in st.table
      ensures s in st.srcs
    {
      hide Pending;
      InTable(st.table, s);
      assert s in Claims(st);
    }
    if st.queue != [] && st.queue[0].AddEvent? {
      assert st.queue[0].s in Pending(st.queue);
      assert st.queue[0].s in Claims(st);
    }
  }

  /** What an action does to the claims. */
  lemma ActClaims<S>(st: State<S>, a: Action<S>)
    requires Proper(st, a)
    ensures Claims(Act(st, a))
         == match a
            case Create(s) => Claims(st) + multiset{s}
            case Retain(s) => Claims(st) + multiset{s}
            case Release(s) => Claims(st) - multiset{s}
            case _ => Claims(st)
  {
    hide Pending;
    var t, q := multiset(st.table), Pending(st.queue);
    match a
    case Create(x) => NewClaim(st.outside, t, q, st.lost, x);
    case Retain(x) => NewClaim(st.outside, t, q, st.lost, x);
    case Release(x) => GivenClaim(st.outside, t, q, st.lost, x);
    case HandOver(x) =>
      PendingAppend(st.queue, AddEvent(x));
      MovedClaim(st.outside, t, q, st.lost, x);
    case Withdraw(x) => PendingAppend(st.queue, RemoveEvent(x));
    case Post => PendingAppend(st.queue, OtherEvent);
  }

  lemma NewClaim<S>(o: multiset<S>, t: multiset<S>, q: multiset<S>, l: multiset<S>, s: S)
    ensures (o + multiset{s}) + t + q + l == o + t + q + l + multiset{s}
  {
  }

  lemma GivenClaim<S>(o: multiset<S>, t: multiset<S>, q: multiset<S>, l: multiset<S>, s: S)
    requires s in o
    ensures (o - multiset{s}) + t + q + l == o + t + q + l - multiset{s}
  {
  }

  lemma MovedClaim<S>(o: multiset<S>, t: multiset<S>, q: multiset<S>, l: multiset<S>, s: S)
    requires s in o
    ensures (o - multiset{s}) + t + (q + multiset{s}) + l == o + t + q + l
  {
  }

  /** Add and remove requests, references and new sources keep the count. */
  lemma ActConserves<S>(st: State<S>, a: Action<S>)
    requires Conserved(st) && Proper(st, a)
    ensures Conserved(Act(st, a))
  {
    hide Claims, Pending, Accounted, Act;
    ActClaims(st, a);
    match a
    case Create(s) => CreateAccounted(st, s);
    case Retain(s) => RetainAccounted(st, s);
    case Release(s) => ReleaseAccounted(st, s);
    case _ => OthersAccounted(st, a);
  }

  lemma CreateAccounted<S>(st: State<S>, s: S)
    requires Conserved(st) && Proper(st, Create(s))
    ensures Accounted(Act(st, Create(s)).srcs, Claims(st) + multiset{s})
  {
    hide Claims, Pending;
    assert Claims(st)[s] == 0;
    Gain(st.srcs, Claims(st), s, Src(1, false, 0, false));
  }

  lemma RetainAccounted<S>(st: State<S>, s: S)
    requires Conserved(st) && Proper(st, Retain(s))
    ensures Accounted(Act(st, Retain(s)).srcs, Claims(st) + multiset{s})
  {
    hide Claims, Pending;
    Gain(st.srcs, Claims(st), s, Act(st, Retain(s)).srcs[s]);
  }

  lemma ReleaseAccounted<S>(st: State<S>, s: S)
    requires Conserved(st) && Proper(st, Release(s))
    ensures Accounted(Act(st, Release(s)).srcs, Claims(st) - multiset{s})
  {
    hide Claims, Pending;
    OutsideClaim(st, s);
    Lose(st.srcs, Claims(st), s, Act(st, Release(s)).srcs[s]);
  }

  lemma OthersAccounted<S>(st: State<S>, a: Action<S>)
    requires Conserved(st) && Proper(st, a) && !a.Create? && !a.Retain? && !a.Release?
    ensures Accounted(Act(st, a).srcs, Claims(st))
  {
    hide Claims, Pending;
    if a.HandOver? || a.Withdraw? {
      Keep(st.srcs, Claims(st), a.s, Act(st, a).srcs[a.s]);
    }
  }

  lemma OutsideClaim<S>(st: State<S>, s: S)
    requires st.outside[s] > 0
    ensures s in Claims(st)
  {
  }

  lemma TableClaim<S>(st: State<S>, s: S)
    requires s in st.table
    ensures s in Claims(st)
  {
    hide Pending;
    InTable(st.table, s);
  }

  lemma PendingFront<S>(q: seq<Event<S>>)
    requires q != []
    ensures Pending(q) == (if q[0].AddEvent? then multiset{q[0].s} else multiset{}) + Pending(q[1..])
  {
  }

  /** Taking a source out of the table gives up exactly the reference the table held. */
  lemma RemoveConserves<S>(st: State<S>, s: S)
    requires Conserved(st)
    ensures s in st.table ==> s in st.srcs
    ensures Conserved(ManagerRemove(st, s))
    ensures Claims(ManagerRemove(st, s)) == Claims(st) - if s in st.table then multiset{s} else multiset{}
    ensures forall x :: x in st.srcs ==>
              ManagerRemove(st, s).srcs[x].ref == st.srcs[x].ref - if x == s && s in st.table then 1 else 0
  {
    ConservedKnown(st);
    RemoveClaims(st, s);
    hide Claims, Known, WithoutFirst;
    if s in st.table {
      TableClaim(st, s);
      Lose(st.srcs, Claims(st), s, ManagerRemove(st, s).srcs[s]);
    }
  }

  lemma RemoveClaims<S>(st: State<S>, s: S)
    requires s in st.table ==> s in st.srcs
    ensures Claims(ManagerRemove(st, s)) == Claims(st) - if s in st.table then multiset{s} else multiset{}
  {
    hide Pending, WithoutFirst;
    WithoutFirstCount(st.table, s);
    InTable(st.table, s);
  }

  /** Handling an addition moves the reference from the event to the table, or loses it. */
  lemma AddConserves<S>(st: State<S>, s: S, max: nat)
    requires Conserved(st) && st.queue != [] && st.queue[0] == AddEvent(s)
    ensures Known(st) && Conserved(PrimaryDispatch(st, max))
  {
    ConservedKnown(st);
    PendingFront(st.queue);
    hide Pending;
    assert multiset(st.table + [s]) == multiset(st.table) + multiset{s};
    assert Claims(PrimaryDispatch(st, max)) == Claims(st);
    hide Claims, Known;
  }

  /** An event that hands over no reference is taken off the queue. */
  lemma DropEventConserves<S>(st: State<S>)
    requires Conserved(st) && st.queue != [] && !st.queue[0].AddEvent?
    ensures Conserved(st.(queue := st.queue[1..]))
  {
    PendingFront(st.queue);
    hide Pending;
    assert multiset{} + Pending(st.queue[1..]) == Pending(st.queue);
    assert Claims(st.(queue := st.queue[1..])) == Claims(st);
    hide Claims;
  }

  /** Handling an event keeps the count; a reference is lost exactly if it was to go into a full table. */
  lemma DispatchConserves<S>(st: State<S>, max: nat)
    requires Conserved(st) && st.queue != []
    ensures Known(st) && Conserved(PrimaryDispatch(st, max))
    ensures |PrimaryDispatch(st, max).lost| == |st.lost| + if st.queue[0].AddEvent? && |st.table| >= max then 1 else 0
  {
    ConservedKnown(st);
    if st.queue[0].AddEvent? {
      AddConserves(st, st.queue[0].s, max);
    } else {
      DropEventConserves(st);
      hide Conserved, Known;
      if st.queue[0].RemoveEvent? {
        RemoveConserves(st.(queue := st.queue[1..]), st.queue[0].s);
      }
    }
  }

  // ---------------------------------------------------------------- whole runs

  /** What can happen next; `Sweep` is the removal of a source by the main loop itself. */
  datatype Step<S> = User(a: Action<S>) | Primary | Sweep(s: S) | Refresh

  ghost predicate CanStep<S>(st: State<S>, x: Step<S>) {
    match x
    case User(a) => Proper(st, a)
    case Primary => st.queue != []
    case Sweep(s) => s in st.table
    case Refresh => true
  }

  ghost function Next<S>(st: State<S>, x: Step<S>, max: nat): State<S>
    requires Known(st) && CanStep(st, x)
  {
    match x
    case User(a) => Act(st, a)
    case Primary => PrimaryDispatch(st, max)
    case Sweep(s) => ManagerRemove(st, s)
    case Refresh => st.(need := if st.need > 0 then st.need - 1 else 0)
  }

  ghost predicate Reaches<S>(st: State<S>, xs: seq<Step<S>>, max: nat, end: State<S>)
    decreases |xs|
  {
    if xs == [] then st == end
    else Known(st) && CanStep(st, xs[0]) && Reaches(Next(st, xs[0], max), xs[1..], max, end)
  }

  lemma StepConserves<S>(st: State<S>, x: Step<S>, max: nat)
    requires Conserved(st) && CanStep(st, x)
    ensures Known(st) && Conserved(Next(st, x, max))
  {
    ConservedKnown(st);
    hide Known, Pending;
    match x
    case User(a) => ActConserves(st, a);
    case Primary => DispatchConserves(st, max);
    case Sweep(s) => RemoveConserves(st, s);
    case Refresh =>
  }

  /** No step of the run meets a full table with an addition. */
  ghost predicate Roomy<S>(st: State<S>, xs: seq<Step<S>>, max: nat)
    decreases |xs|
  {
    xs != [] && Known(st) && CanStep(st, xs[0]) ==>
      && !(xs[0].Primary? && st.queue[0].AddEvent? && |st.table| >= max)
      && Roomy(Next(st, xs[0], max), xs[1..], max)
  }

  /**
   In every state a run can reach, the count is right and nothing in use has been destroyed; and
   no reference has been lost exactly if no addition met a full table.
   */
  lemma {:induction false} RunConserves<S>(st: State<S>, xs: seq<Step<S>>, max: nat, end: State<S>)
    requires Conserved(st) && Reaches(st, xs, max, end)
    ensures Conserved(end) && |st.lost| <= |end.lost|
    ensures forall s :: s in end.table || s in Pending(end.queue) ==> s in end.srcs && !end.srcs[s].gone
    ensures |end.lost| == |st.lost| <==> Roomy(st, xs, max)
    decreases |xs|
  {
    hide Conserved, Next, CanStep, Known;
    if xs == [] {
      forall s | s in end.table || s in Pending(end.queue)
        ensures s in end.srcs && !end.srcs[s].gone
      {
        LiveIffClaimed(end, s);
      }
    } else {
      StepConserves(st, xs[0], max);
      StepLoses(st, xs[0], max);
      RunConserves(Next(st, xs[0], max), xs[1..], max, end);
    }
  }

  lemma StepLoses<S>(st: State<S>, x: Step<S>, max: nat)
    requires Conserved(st) && CanStep(st, x)
    ensures Known(st) && (x.Primary? ==> st.queue != [])
    ensures |Next(st, x, max).lost| == |st.lost|
              + if x.Primary? && st.queue[0].AddEvent? && |st.table| >= max then 1 else 0
  {
    hide Conserved, PrimaryDispatch, Act, ManagerRemove;
    ConservedKnown(st);
    match x
    case User(a) => ActLoses(st, a);
    case Primary => DispatchConserves(st, max);
    case Sweep(s) => RemoveLoses(st, s);
    case Refresh =>
  }

  lemma ActLoses<S>(st: State<S>, a: Action<S>)
    requires Proper(st, a)
    ensures Act(st, a).lost == st.lost
  {
  }

  lemma RemoveLoses<S>(st: State<S>, s: S)
    requires s in st.table ==> s in st.srcs
    ensures ManagerRemove(st, s).lost == st.lost
  {
    hide WithoutFirst;
  }

  /** A removal asked for is carried out by the sweep or by the event, whichever comes first. */
  ghost function SweepThenEvent<S>(st: State<S>, s: S): State<S>
    requires Conserved(st) && s in st.table
  {
    RemoveConserves(st, s);
    ManagerRemove(ManagerRemove(st, s), s)
  }

  /**
   The two removal paths race.  The reference count, the table and everything else but the refresh
   counter come out the same whether the sweep gets there before the event or not, exactly if the
   source is managed once.
   */
  lemma RemovalRaceIff<S>(st: State<S>, s: S)
    requires Conserved(st) && s in st.table
    ensures var both, event := SweepThenEvent(st, s), ManagerRemove(st, s);
            && (both == event.(need := event.need + 1) <==> multiset(st.table)[s] == 1)
            && (multiset(st.table)[s] == 1 ==> both.srcs[s].ref == st.srcs[s].ref - 1)
  {
    hide Claims, Conserved, WithoutFirst;
    RemoveConserves(st, s);
    var event := ManagerRemove(st, s);
    WithoutFirstCount(st.table, s);
    WithoutFirstCount(event.table, s);
    InTable(event.table, s);
    InTable(st.table, s);
  }

  // ---------------------------------------------------------------- addresses that are used again

  /** `s` is not managed, and the first `n` events do not change that. */
  ghost predicate Unmanaged<S>(st: State<S>, s: S, n: int) {
    s !in st.table && 0 <= n <= |st.queue| && forall i :: 0 <= i < n ==> st.queue[i] != AddEvent(s)
  }

  lemma {:induction false} PendingHas<S>(q: seq<Event<S>>, i: nat)
    requires i < |q| && q[i].AddEvent?
    ensures q[i].s in Pending(q)
  {
    if i > 0 {
      PendingHas(q[1..], i - 1);
    }
  }

  /** Nothing that is left over from a destroyed source can put it into the table again. */
  lemma GoneIsUnmanaged<S>(st: State<S>, s: S)
    requires Conserved(st) && s in st.srcs && st.srcs[s].gone
    ensures Unmanaged(st, s, |st.queue|)
  {
    LiveIffClaimed(st, s);
    hide Pending, Conserved;
    forall i | 0 <= i < |st.queue|
      ensures st.queue[i] != AddEvent(s)
    {
      if st.queue[i].AddEvent? {
        PendingHas(st.queue, i);
      }
    }
  }

  function Handled<S>(xs: seq<Step<S>>): nat {
    if xs == [] then 0 else (if xs[0].Primary? then 1 else 0) + Handled(xs[1..])
  }

  lemma StepUnmanaged<S>(st: State<S>, s: S, n: nat, x: Step<S>, max: nat)
    requires Known(st) && CanStep(st, x) && Unmanaged(st, s, n) && (x.Primary? ==> n > 0)
    ensures var u, d := Next(st, x, max), if x.Primary? then 1 else 0;
            Unmanaged(u, s, n - d) && u.queue[..n - d] == st.queue[d..n]
  {
    hide WithoutFirst, Known;
    match x
    case User(a) =>
    case Primary =>
      if st.queue[0].RemoveEvent? {
        StaysOut(st.table, s, st.queue[0].s);
      }
    case Sweep(y) => StaysOut(st.table, s, y);
    case Refresh =>
  }

  lemma StaysOut<S>(t: seq<S>, s: S, y: S)
    requires s !in t
    ensures s !in WithoutFirst(t, y)
  {
    WithoutFirstCount(t, y);
    InTable(t, s);
    InTable(WithoutFirst(t, y), s);
    hide WithoutFirst;
  }

  lemma {:induction false} RunUnmanaged<S>(st: State<S>, s: S, n: nat, xs: seq<Step<S>>, max: nat, end: State<S>)
    requires Unmanaged(st, s, n) && Reaches(st, xs, max, end) && Handled(xs) <= n
    ensures Unmanaged(end, s, n - Handled(xs)) && end.queue[..n - Handled(xs)] == st.queue[Handled(xs)..n]
    decreases |xs|
  {
    hide Known, CanStep, Next, Unmanaged;
    if xs != [] {
      var d := if xs[0].Primary? then 1 else 0;
      StepUnmanaged(st, s, n, xs[0], max);
      assert Unmanaged(Next(st, xs[0], max), s, n - d);
      RunUnmanaged(Next(st, xs[0], max), s, n - d, xs[1..], max, end);
      QueueOf(st, s, n);
      QueueOf(Next(st, xs[0], max), s, n - d);
      var q := Next(st, xs[0], max).queue;
      assert q[..n - d][Handled(xs[1..])..] == q[Handled(xs[1..])..n - d];
    }
  }

  lemma QueueOf<S>(st: State<S>, s: S, n: int)
    requires Unmanaged(st, s, n)
    ensures 0 <= n <= |st.queue|
  {
  }

  /**
   A request to remove a source that is still queued when the source has been destroyed never
   removes a new source at the same address: it is handled before the new one can be managed.
   */
  lemma StaleRemovalMisses<S>(st: State<S>, s: S, xs: seq<Step<S>>, max: nat, end: State<S>)
    requires Conserved(st) && s in st.srcs && st.srcs[s].gone
    requires Reaches(Act(st, Create(s)), xs, max, end)
    requires Handled(xs) < |st.queue| && st.queue[Handled(xs)] == RemoveEvent(s)
    ensures Known(end) && end.queue != [] && end.queue[0] == RemoveEvent(s)
    ensures PrimaryDispatch(end, max) == end.(queue := end.queue[1..], need := end.need + 1)
  {
    hide Conserved, Reaches, Known, Handled, Pending, Unmanaged, Act;
    var n, p := |st.queue|, Handled(xs);
    GoneIsUnmanaged(st, s);
    CreateUnmanaged(st, s);
    ActConserves(st, Create(s));
    RunConserves(Act(st, Create(s)), xs, max, end);
    ConservedKnown(end);
    RunUnmanaged(Act(st, Create(s)), s, n, xs, max, end);
    QueueOf(end, s, n - p);
    assert end.queue[..n - p][0] == st.queue[p..n][0] == st.queue[p];
    MissesTable(end, s, n - p, max);
  }

  lemma CreateUnmanaged<S>(st: State<S>, s: S)
    requires Unmanaged(st, s, |st.queue|) && Proper(st, Create(s))
    ensures Unmanaged(Act(st, Create(s)), s, |st.queue|) && Act(st, Create(s)).queue == st.queue
  {
  }

  lemma MissesTable<S>(st: State<S>, s: S, n: int, max: nat)
    requires Known(st) && Unmanaged(st, s, n) && n > 0 && st.queue[0] == RemoveEvent(s)
    ensures PrimaryDispatch(st, max) == st.(queue := st.queue[1..], need := st.need + 1)
  {
    hide Known;
  }

  // ---------------------------------------------------------------- runs that go wrong

  const EMPTY: State<int> := State(map[], [], 0, [], multiset{}, multiset{})

  lemma Along<S>(st: State<S>, x: Step<S>, xs: seq<Step<S>>, max: nat, end: State<S>)
    requires Known(st) && CanStep(st, x) && Reaches(Next(st, x, max), xs, max, end)
    ensures Reaches(st, [x] + xs, max, end)
  {
    hide Known, CanStep, Next;
    assert ([x] + xs)[1..] == xs;
  }

  lemma Finally<S>(st: State<S>, x: Step<S>, max: nat, end: State<S>)
    requires Known(st) && CanStep(st, x) && Next(st, x, max) == end
    ensures Reaches(st, [x], max, end)
  {
    hide Known, CanStep, Next;
    assert [x][1..] == [];
  }

  lemma {:induction false} Composed<S>(
    st: State<S>, xs: seq<Step<S>>, mid: State<S>, ys: seq<Step<S>>, max: nat, end: State<S>)
    requires Reaches(st, xs, max, mid) && Reaches(mid, ys, max, end)
    ensures Reaches(st, xs + ys, max, end)
    decreases |xs|
  {
    hide Known, CanStep, Next;
    if xs == [] {
      assert xs + ys == ys;
    } else {
      assert (xs + ys)[1..] == xs[1..] + ys;
      Composed(Next(st, xs[0], max), xs[1..], mid, ys, max, end);
    }
  }

  /** The sources 0 to n - 1 are managed, and nobody else holds them. */
  function Filled(n: nat): (st: State<nat>)
    ensures |st.table| == n && st.queue == [] && st.outside == multiset{} && st.lost == multiset{}
    ensures forall s: nat :: s in st.srcs <==> s < n
    ensures forall s: nat :: s in st.table <==> s < n
  {
    if n == 0 then State(map[], [], 0, [], multiset{}, multiset{})
    else
      var st := Filled(n - 1);
      st.(srcs := st.srcs[n - 1 := Src(1, true, 0, false)], table := st.table + [n - 1], need := st.need + 1)
  }

  /** One more source is created and handed over, and its addition handled. */
  function Handing(n: nat): seq<Step<nat>> {
    [User(Create(n)), User(HandOver(n)), Primary]
  }

  /** The state after that with a full table: the source is neither managed nor held by anyone, and stays. */
  function Leaked(n: nat): State<nat> {
    var st := Filled(n);
    st.(srcs := st.srcs[n := Src(1, true, 0, false)], lost := multiset{n})
  }

  lemma HandingReaches(n: nat, max: nat)
    ensures Reaches(Filled(n), Handing(n), max, if n < max then Filled(n + 1) else Leaked(n))
  {
    var st, end := Filled(n), if n < max then Filled(n + 1) else Leaked(n);
    hide Filled;
    var a := st.(srcs := st.srcs[n := Src(1, false, 0, false)], outside := multiset{n});
    var b := st.(srcs := st.srcs[n := Src(1, true, 0, false)], queue := [AddEvent(n)]);
    assert Next(st, User(Create(n)), max) == a;
    assert Next(a, User(HandOver(n)), max) == b;
    assert Next(b, Primary, max) == end;
    Finally(b, Primary, max, end);
    Along(a, User(HandOver(n)), [Primary], max, end);
    Along(st, User(Create(n)), [User(HandOver(n))] + [Primary], max, end);
    assert [User(Create(n))] + ([User(HandOver(n))] + [Primary]) == Handing(n);
  }

  lemma {:induction false} FilledReachable(n: nat, max: nat)
    requires n <= max
    ensures exists xs :: Reaches(Filled(0), xs, max, Filled(n))
    decreases n
  {
    hide Reaches, Filled, Handing, Leaked;
    if n == 0 {
      NoSteps(Filled(0), max);
    } else {
      FilledReachable(n - 1, max);
      var xs :| Reaches(Filled(0), xs, max, Filled(n - 1));
      HandingReaches(n - 1, max);
      Composed(Filled(0), xs, Filled(n - 1), Handing(n - 1), max, Filled(n));
    }
  }

  lemma NoSteps<S>(st: State<S>, max: nat)
    ensures Reaches(st, [], max, st)
  {
  }

  lemma EmptyConserved()
    ensures Conserved(Filled(0)) && Filled(0).srcs == map[]
  {
  }

  /** A source that has been swept out and destroyed, with the request to remove it still queued. */
  const SWEPT: State<nat> := State(
    map[0 := Src(0, false, 1, true)], [], 2, [RemoveEvent(0)], multiset{}, multiset{})

  const ONE: State<nat> := State(map[0 := Src(1, true, 0, false)], [0], 1, [], multiset{}, multiset{})

  const REQUESTED: State<nat> := State(
    map[0 := Src(1, true, 1, false)], [0], 1, [RemoveEvent(0)], multiset{}, multiset{})

  lemma FilledOne()
    ensures Filled(1) == ONE
  {
    assert Filled(0).srcs == map[] && Filled(0).table == [];
  }

  lemma SweptAway(max: nat)
    ensures CanStep(ONE, User(Withdraw(0))) && Next(ONE, User(Withdraw(0)), max) == REQUESTED
    ensures CanStep(REQUESTED, Sweep(0)) && Next(REQUESTED, Sweep(0), max) == SWEPT
  {
  }

  /** A run that leads there. */
  lemma RemovalOutlivesSource(max: nat)
    requires max > 0
    ensures Reaches(Filled(0), Handing(0) + [User(Withdraw(0)), Sweep(0)], max, SWEPT)
  {
    hide Reaches, Filled, Handing, Next, CanStep;
    HandingReaches(0, max);
    FilledOne();
    SweptAway(max);
    Finally(REQUESTED, Sweep(0), max, SWEPT);
    Along(ONE, User(Withdraw(0)), [Sweep(0)], max, SWEPT);
    assert [User(Withdraw(0))] + [Sweep(0)] == [User(Withdraw(0)), Sweep(0)];
    Composed(Filled(0), Handing(0), ONE, [User(Withdraw(0)), Sweep(0)], max, SWEPT);
  }

  /** Whatever the capacity, some run from nothing fills the table and loses a source. */
  lemma FullTableLosesReference(max: nat)
    ensures Conserved(Filled(0)) && Filled(0).srcs == map[]
    ensures exists xs, end :: Reaches(Filled(0), xs, max, end)
              && end.lost == multiset{max} && max !in end.table && end.outside == multiset{} && end.queue == []
              && max in end.srcs && end.srcs[max].ref == 1 && !end.srcs[max].gone
  {
    hide Reaches, Filled, Handing;
    FilledReachable(max, max);
    EmptyConserved();
    var xs :| Reaches(Filled(0), xs, max, Filled(max));
    HandingReaches(max, max);
    Composed(Filled(0), xs, Filled(max), Handing(max), max, Leaked(max));
  }

  const HANDED: State<int> := State(
    map[7 := Src(2, true, 0, false)], [], 0, [AddEvent(7), AddEvent(7)], multiset{}, multiset{})

  const MANAGED: State<int> := State(map[7 := Src(2, true, 0, false)], [7, 7], 2, [], multiset{}, multiset{})

  /** A source that is managed twice, with one request under way to remove it. */
  const TWICE: State<int> := State(
    map[7 := Src(2, true, 1, false)], [7, 7], 2, [RemoveEvent(7)], multiset{}, multiset{})

  const CREATED: State<int> := State(map[7 := Src(1, false, 0, false)], [], 0, [], multiset{7}, multiset{})

  const HELD: State<int> := State(map[7 := Src(2, false, 0, false)], [], 0, [], multiset{7, 7}, multiset{})

  const HALF: State<int> := State(map[7 := Src(2, true, 0, false)], [], 0, [AddEvent(7)], multiset{7}, multiset{})

  lemma CreatedHeld(max: nat)
    ensures CanStep(EMPTY, User(Create(7))) && Next(EMPTY, User(Create(7)), max) == CREATED
    ensures CanStep(CREATED, User(Retain(7))) && Next(CREATED, User(Retain(7)), max) == HELD
  {
  }

  lemma HeldHanded(max: nat)
    ensures CanStep(HELD, User(HandOver(7))) && Next(HELD, User(HandOver(7)), max) == HALF
    ensures CanStep(HALF, User(HandOver(7))) && Next(HALF, User(HandOver(7)), max) == HANDED
  {
  }

  lemma HandedTwice(max: nat)
    ensures Reaches(EMPTY, [User(Create(7)), User(Retain(7)), User(HandOver(7)), User(HandOver(7))], max, HANDED)
  {
    hide Reaches, Next, Proper;
    CreatedHeld(max);
    HeldHanded(max);
    Finally(HALF, User(HandOver(7)), max, HANDED);
    Along(HELD, User(HandOver(7)), [User(HandOver(7))], max, HANDED);
    Along(CREATED, User(Retain(7)), [User(HandOver(7))] + [User(HandOver(7))], max, HANDED);
    Along(EMPTY, User(Create(7)), [User(Retain(7))] + ([User(HandOver(7))] + [User(HandOver(7))]), max, HANDED);
    assert [User(Create(7))] + ([User(Retain(7))] + ([User(HandOver(7))] + [User(HandOver(7))]))
        == [User(Create(7)), User(Retain(7)), User(HandOver(7)), User(HandOver(7))];
  }

  lemma AddedTwice(max: nat)
    requires max >= 2
    ensures Reaches(HANDED, [Primary, Primary, User(Withdraw(7))], max, TWICE)
  {
    hide Reaches;
    var a := Next(HANDED, Primary, max);
    assert a.queue == [AddEvent(7)] && a.table == [7];
    assert Next(a, Primary, max) == MANAGED;
    assert Next(MANAGED, User(Withdraw(7)), max) == TWICE;
    Finally(MANAGED, User(Withdraw(7)), max, TWICE);
    Along(a, Primary, [User(Withdraw(7))], max, TWICE);
    Along(HANDED, Primary, [Primary] + [User(Withdraw(7))], max, TWICE);
    assert [Primary] + ([Primary] + [User(Withdraw(7))]) == [Primary, Primary, User(Withdraw(7))];
  }

  /** Handing a source over twice leads there. */
  lemma ManagedTwice(max: nat)
    requires max >= 2
    ensures Reaches(EMPTY, [User(Create(7)), User(Retain(7)), User(HandOver(7)), User(HandOver(7)), Primary, Primary,
                            User(Withdraw(7))], max, TWICE)
  {
    hide Reaches;
    HandedTwice(max);
    AddedTwice(max);
    var xs, ys := [User(Create(7)), User(Retain(7)), User(HandOver(7)), User(HandOver(7))],
                  [Primary, Primary, User(Withdraw(7))];
    Composed(EMPTY, xs, HANDED, ys, max, TWICE);
    assert xs + ys == [User(Create(7)), User(Retain(7)), User(HandOver(7)), User(HandOver(7)), Primary, Primary,
                       User(Withdraw(7))];
  }

  /** The sweep and the event then carry the one request out twice, and the source is destroyed. */
  lemma OneRequestRemovesTwice(max: nat)
    ensures exists end :: Reaches(TWICE, [Sweep(7), Primary], max, end)
              && end.table == [] && 7 in end.srcs && end.srcs[7].ref == 0 && end.srcs[7].gone
  {
    var a := Next(TWICE, Sweep(7), max);
    assert a.table == [7];
    var end := Next(a, Primary, max);
    assert end.table == [];
    Finally(a, Primary, max, end);
    Along(TWICE, Sweep(7), [Primary], max, end);
    assert [Sweep(7)] + [Primary] == [Sweep(7), Primary];
  }
}
