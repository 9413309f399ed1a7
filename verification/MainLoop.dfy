/**
 The event loop's objects: sources, the array that manages them, the event queue and the scan
 (src/ftk_source.h, src/ftk_sources_manager.c, src/ftk_source_primary.c, src/ftk_main_loop.c,
 src/ftk_main_loop_select.c).  Every method is proved against the state machine.
 */
module MainLoops {
  import opened Scheduler
  import opened SweepModel

  const FTK_DEFAULT_SOURCE_NR := 32

  class Source {
    var ref: int
    var active: bool
    var disable: nat
    /** The destroy function has been called. */
    var gone: bool

    constructor ()
      ensures Look() == Src(1, false, 0, false)
    {
      ref, active, disable, gone := 1, false, 0, false;
    }

    function Look(): Src
      reads this
    {
      Src(ref, active, disable, gone)
    }

    /** ftk_source_disable */
    method Disable()
      modifies this`disable
      ensures Look() == old(Look()).(disable := old(disable) + 1)
    {
      disable := disable + 1;
    }

    /** ftk_source_enable */
    method Enable()
      modifies this`disable
      ensures Look() == Enabled(old(Look()))
    {
      if disable > 0 {
        disable := disable - 1;
      } else {
        disable := 0;
      }
    }

    /** ftk_source_ref */
    method Ref()
      modifies this`ref
      ensures Look() == old(Look()).(ref := old(ref) + 1)
    {
      ref := ref + 1;
    }

    /** ftk_source_unref */
    method Unref()
      modifies this`ref, this`gone
      ensures Look() == Unreffed(old(Look()))
    {
      ref := ref - 1;
      if ref == 0 {
        gone := true;
      }
    }
  }

  class SourcesManager {
    var sourceNr: nat
    var needRefresh: nat
    const maxSourceNr: nat
    const sources: array<Source?>

    ghost predicate Valid()
      reads this, sources
    {
      && sourceNr <= maxSourceNr < sources.Length
      && forall i :: 0 <= i < sourceNr ==> sources[i] != null
    }

    function Table(): (t: seq<Source?>)
      requires Valid()
      reads this, sources
      ensures |t| == sourceNr && null !in t
    {
      sources[..sourceNr]
    }

    /** ftk_sources_manager_create */
    constructor (max: int)
      ensures Valid() && Table() == [] && needRefresh == 0 && fresh(sources)
      ensures maxSourceNr == if max < FTK_DEFAULT_SOURCE_NR then FTK_DEFAULT_SOURCE_NR else max
    {
      var n := if max < FTK_DEFAULT_SOURCE_NR then FTK_DEFAULT_SOURCE_NR else max;
      sourceNr, needRefresh, maxSourceNr := 0, 0, n;
      sources := new Source?[n + 1](_ => null);
    }

    /** ftk_sources_manager_set_need_refresh */
    method SetNeedRefresh()
      modifies this`needRefresh
      ensures needRefresh == old(needRefresh) + 1
    {
      needRefresh := needRefresh + 1;
    }

    /** ftk_sources_manager_need_refresh */
    method NeedRefresh() returns (need: nat)
      modifies this`needRefresh
      ensures need == old(needRefresh)
      ensures needRefresh == if old(needRefresh) > 0 then old(needRefresh) - 1 else 0
    {
      need := 0;
      if needRefresh > 0 {
        need := needRefresh;
        needRefresh := needRefresh - 1;
      }
    }

    /** ftk_sources_manager_add */
    method Add(source: Source) returns (ok: bool)
      requires Valid()
      modifies this, sources, source`active
      ensures Valid() && ok == (old(sourceNr) < maxSourceNr)
      ensures Table() == if ok then old(Table()) + [source] else old(Table())
      ensures needRefresh == if ok then old(needRefresh) + 1 else old(needRefresh)
      ensures source.Look() == if ok then old(source.Look()).(active := true) else old(source.Look())
    {
      if !(sourceNr < maxSourceNr) {
        return false;
      }
      source.active := true;
      sources[sourceNr] := source;
      sourceNr := sourceNr + 1;
      SetNeedRefresh();
      ok := true;
    }

    /** The search of ftk_sources_manager_remove. */
    method IndexOf(source: Source) returns (i: nat)
      requires Valid()
      ensures i <= sourceNr && source !in Table()[..i] && (i < sourceNr ==> Table()[i] == source)
    {
      i := 0;
      while i < sourceNr
        invariant i <= sourceNr && source !in Table()[..i]
      {
        if sources[i] == source {
          break;
        }
        i := i + 1;
      }
    }

    /** And its closing of the gap. */
    method CloseGap(k: nat)
      requires Valid() && k < sourceNr
      modifies this`sourceNr, sources
      ensures Valid() && Table() == old(Table()[..k] + Table()[k + 1..])
    {
      ghost var t := Table();
      var i := k;
      while i + 1 < sourceNr
        invariant k <= i < sourceNr == |t|
        invariant forall j :: 0 <= j < k ==> sources[j] == t[j]
        invariant forall j :: k <= j < i ==> sources[j] == t[j + 1]
        invariant forall j :: i < j < |t| ==> sources[j] == t[j]
      {
        sources[i] := sources[i + 1];
        i := i + 1;
      }
      sourceNr := sourceNr - 1;
      sources[sourceNr] := null;
      assert sources[..sourceNr] == t[..k] + t[k + 1..];
      assert forall j :: 0 <= j < sourceNr ==> sources[j] == sources[..sourceNr][j];
    }

    /** ftk_sources_manager_remove; a source that is not managed is only compared, never looked into. */
    method Remove(source: Source)
      requires Valid()
      modifies this, sources, source
      ensures Valid() && Table() == WithoutFirst(old(Table()), source)
      ensures needRefresh == old(needRefresh) + 1
      ensures source.Look() == if source in old(Table()) then Unreffed(old(source.Look()).(active := false))
                               else old(source.Look())
    {
      hide WithoutFirst;
      var i := IndexOf(source);
      assert i == sourceNr ==> Table()[..i] == Table();
      if i < sourceNr {
        WithoutFirstAt(Table(), i, source);
        CloseGap(i);
        source.active := false;
        source.Unref();
      }
      SetNeedRefresh();
    }
  }

  class MainLoop {
    const manager: SourcesManager
    const primary: Source
    var queue: seq<Event<Source?>>
    /** The world around the loop: every source there is, the references held outside, and those lost. */
    var all: set<Source?>
    var outside: multiset<Source?>
    var lost: multiset<Source?>

    ghost predicate Valid()
      reads this, manager, manager.sources
    {
      && manager.Valid() && null !in all
      && forall i :: 0 <= i < |queue| && !queue[i].OtherEvent? ==> queue[i].s in all
    }

    function Now(): State<Source?>
      requires Valid()
      reads this, manager, manager.sources, all
    {
      State(map s: Source? | s in all :: s.Look(), manager.Table(), manager.needRefresh, queue, outside, lost)
    }

    constructor (manager: SourcesManager, primary: Source)
      requires manager.Valid() && manager.Table() == [] && primary.Look() == Src(1, false, 0, false)
      ensures Valid() && this.manager == manager && this.primary == primary
      ensures all == {primary} && queue == [] && outside == multiset{primary} && lost == multiset{}
      ensures Conserved(Now()) && Proper(Now(), HandOver(primary))
    {
      this.manager, this.primary, queue := manager, primary, [];
      all, outside, lost := {primary}, multiset{primary}, multiset{};
    }

    /** A source's create function. */
    method NewSource() returns (s: Source)
      requires Valid() && Conserved(Now())
      modifies this`all, this`outside
      ensures Valid() && fresh(s) && Proper(old(Now()), Create(s)) && Now() == Act(old(Now()), Create(s))
    {
      hide Conserved, Claims;
      ghost var before := Now();
      s := new Source();
      assert Now() == before && s !in all;
      all := all + {s};
      assert Now().srcs == before.srcs[s := s.Look()];
      outside := outside + multiset{s};
    }

    /** ftk_source_ref, called by code outside the scheduler */
    method RefSource(s: Source)
      requires Valid() && Proper(Now(), Retain(s))
      modifies this`outside, s
      ensures Valid() && all == old(all) && Now() == Act(old(Now()), Retain(s))
    {
      s.Ref();
      outside := outside + multiset{s};
    }

    /** ftk_source_unref, called by code outside the scheduler */
    method UnrefSource(s: Source)
      requires Valid() && Proper(Now(), Release(s))
      modifies this`outside, s
      ensures Valid() && all == old(all) && Now() == Act(old(Now()), Release(s))
    {
      s.Unref();
      outside := outside - multiset{s};
    }

    /** ftk_main_loop_add_source */
    method AddSource(s: Source)
      requires Valid() && Proper(Now(), HandOver(s))
      modifies this`queue, this`outside, s
      ensures Valid() && all == old(all) && Now() == Act(old(Now()), HandOver(s))
    {
      s.active := true;
      s.Enable();
      queue := queue + [AddEvent(s)];
      outside := outside - multiset{s};
    }

    /** ftk_main_loop_remove_source */
    method RemoveSource(s: Source)
      requires Valid() && Proper(Now(), Withdraw(s))
      modifies this`queue, s
      ensures Valid() && all == old(all) && Now() == Act(old(Now()), Withdraw(s))
    {
      s.Disable();
      queue := queue + [RemoveEvent(s)];
    }

    /** ftk_source_queue_event for any other event */
    method QueueOther()
      requires Valid()
      modifies this`queue
      ensures Valid() && all == old(all) && Now() == Act(old(Now()), Post)
    {
      queue := queue + [OtherEvent];
    }

    /** A call of ftk_sources_manager_add. */
    method Manage(s: Source)
      requires Valid() && s in all
      modifies this`lost, manager, manager.sources, s
      ensures Valid() && all == old(all) && queue == old(queue)
      ensures Now() == ManagerAdd(old(Now()), s, manager.maxSourceNr)
    {
      ghost var before := Now();
      var ok := manager.Add(s);
      if !ok {
        lost := lost + multiset{s};
      }
      assert Now().srcs == if ok then before.srcs[s := s.Look()] else before.srcs;
    }

    /** A call of ftk_sources_manager_remove. */
    method Unmanage(s: Source)
      requires Valid() && s in all
      modifies manager, manager.sources, s
      ensures Valid() && all == old(all) && queue == old(queue)
      ensures Now() == ManagerRemove(old(Now()), s)
    {
      hide WithoutFirst;
      ghost var before := Now();
      manager.Remove(s);
      assert Now().srcs == before.srcs[s := s.Look()];
      assert before.srcs[s := before.srcs[s]] == before.srcs;
    }

    /** ftk_source_primary_dispatch, up to the handler of other events */
    method HandleEvent()
      requires Valid() && queue != [] && Conserved(Now())
      modifies this`queue, this`lost, manager, manager.sources, all
      ensures Valid() && all == old(all)
      ensures Known(old(Now())) && Now() == PrimaryDispatch(old(Now()), manager.maxSourceNr)
    {
      ConservedKnown(Now());
      hide Conserved, Known, ManagerAdd, ManagerRemove;
      var event := queue[0];
      queue := queue[1..];
      assert Now() == old(Now()).(queue := queue);
      match event {
        case AddEvent(s) => Manage(s);
        case RemoveEvent(s) => Unmanage(s);
        case OtherEvent =>
      }
    }

    /** One thing code outside the scheduler does. */
    method Perform(a: Action<Source?>)
      requires Valid() && Proper(Now(), a) && !a.Create?
      modifies this`queue, this`outside, all
      ensures Valid() && all == old(all) && Now() == Act(old(Now()), a)
    {
      hide Act;
      match a {
        case Retain(s) => RefSource(s);
        case Release(s) => UnrefSource(s);
        case HandOver(s) => AddSource(s);
        case Withdraw(s) => RemoveSource(s);
        case Post => QueueOther();
      }
    }

    /** A callback. */
    method RunCallback(acts: seq<Action<Source?>>)
      requires Valid() && forall a <- acts :: !a.Create?
      modifies this`queue, this`outside, all
      ensures Valid() && all == old(all) && Now() == ActAll(old(Now()), acts)
    {
      assert acts[0..] == acts;
      for i := 0 to |acts|
        invariant Valid() && all == old(all)
        invariant ActAll(Now(), acts[i..]) == ActAll(old(Now()), acts)
      {
        hide Act, Proper;
        assert acts[i..][0] == acts[i] && acts[i..][1..] == acts[i + 1..];
        if Proper(Now(), acts[i]) {
          Perform(acts[i]);
        }
      }
    }

    /** ftk_source_dispatch */
    method Dispatch(source: Source, t: Turn<Source?>) returns (ok: bool)
      requires Valid() && Conserved(Now()) && forall a <- t.acts :: !a.Create?
      modifies this`queue, this`outside, this`lost, manager, manager.sources, all
      ensures Valid() && all == old(all)
      ensures (Now(), ok) == DispatchOf(old(Now()), source == primary, t, manager.maxSourceNr)
    {
      ConservedKnown(Now());
      hide Conserved, Known, ActAll, PrimaryDispatch;
      if source != primary {
        RunCallback(t.acts);
        return t.ok;
      }
      if queue == [] {
        return false;
      }
      var event := queue[0];
      HandleEvent();
      if event.OtherEvent? {
        RunCallback(t.acts);
      }
      ok := true;
    }

    lemma ManagedKnown(i: nat)
      requires Valid() && Known(Now()) && i < manager.sourceNr
      ensures manager.sources[i] == Now().table[i] && manager.sources[i] in all
    {
      assert Now().table[i] in Now().table;
      assert Now().table[i] in Now().srcs;
    }

    /** A source whose dispatch fails is removed, and the next one moves to its index. */
    method DispatchOrRemove(source: Source, i: nat, t: Turn<Source?>) returns (j: nat)
      requires Valid() && Conserved(Now()) && source in all && forall a <- t.acts :: !a.Create?
      modifies this`queue, this`outside, this`lost, manager, manager.sources, all
      ensures Valid() && all == old(all)
      ensures var (u, ok) := DispatchOf(old(Now()), source == primary, t, manager.maxSourceNr);
              && j == (if ok then i + 1 else i)
              && (source in u.table ==> source in u.srcs)
              && Now() == if ok then u else ManagerRemove(u, source)
    {
      hide Conserved, DispatchOf, ManagerRemove;
      var ok := Dispatch(source, t);
      j := i + 1;
      if !ok {
        Unmanage(source);
        j := i;
      }
    }

    /** What the scan does with the source at index `i`; the result is the next index. */
    method TakeTurn(i: nat, t: Turn<Source?>, ret: int) returns (j: nat)
      requires Valid() && Conserved(Now()) && i < manager.sourceNr && forall a <- t.acts :: !a.Create?
      modifies this`queue, this`outside, this`lost, manager, manager.sources, all
      ensures Valid() && all == old(all)
      ensures (Now(), j) == TurnOf(old(Now()), i, t, ret, manager.maxSourceNr, primary)
    {
      ConservedKnown(Now());
      ManagedKnown(i);
      var source := manager.sources[i];
      hide Conserved, Known, WithoutFirst, DispatchOf;
      j := i;
      if source.disable > 0 {
        Unmanage(source);
        return;
      }
      if t.fd >= 0 && ret != 0 {
        if ret > 0 && t.readable {
          j := DispatchOrRemove(source, i, t);
          return;
        } else if t.error {
          Unmanage(source);
          return;
        }
      }
      if t.due {
        j := DispatchOrRemove(source, i, t);
        return;
      }
      j := i + 1;
    }

    /** The scan of ftk_main_loop_run after select has returned `ret`. */
    method Scan(turns: seq<Turn<Source?>>, ret: int)
      requires Valid() && Conserved(Now()) && (manager.needRefresh == 0 ==> manager.sourceNr <= |turns|)
      requires forall t <- turns :: forall a <- t.acts :: !a.Create?
      modifies this`queue, this`outside, this`lost, manager, manager.sources, all
      ensures Valid() && all == old(all) && Conserved(Now())
      ensures Now() == SweepFrom(old(Now()), 0, turns, ret, manager.maxSourceNr, primary).st
    {
      hide Conserved, TurnOf, SweepFrom;
      ghost var end := SweepFrom(Now(), 0, turns, ret, manager.maxSourceNr, primary).st;
      SweepConserves(Now(), 0, turns, ret, manager.maxSourceNr, primary);
      var i: nat := 0;
      while i < manager.sourceNr
        invariant Valid() && all == old(all) && Conserved(Now())
        invariant manager.needRefresh == 0 ==> manager.sourceNr <= |turns|
        invariant SweepFrom(Now(), i, turns, ret, manager.maxSourceNr, primary).st == end
        decreases if manager.needRefresh > 0 then 0 else 1, manager.sourceNr - i
      {
        ghost var now := Now();
        SweepCases(now, i, turns, ret, manager.maxSourceNr, primary);
        var need := manager.NeedRefresh();
        if need > 0 {
          assert Now() == now.(need := now.need - 1);
          return;
        }
        assert Now() == now;
        TurnKeeps(now, i, turns[i], ret, manager.maxSourceNr, primary);
        i := TakeTurn(i, turns[i], ret);
      }
      SweepEnds(Now(), i, turns, ret, manager.maxSourceNr, primary);
    }
  }

  lemma {:induction false} WithoutFirstAt<S>(t: seq<S>, k: nat, s: S)
    requires k < |t| && t[k] == s && s !in t[..k]
    ensures WithoutFirst(t, s) == t[..k] + t[k + 1..] && s in t
  {
    if k > 0 {
      assert t[0] in t[..k];
      assert t[..k] == [t[0]] + t[1..][..k - 1];
      WithoutFirstAt(t[1..], k - 1, s);
    }
  }
}
