/** Exactly which events the audit log keeps, whatever happens later: those of a known temple that was not recovered
    over a registered index. */
module AuditPromise {
  import opened Common
  import opened AuditChain
  import opened AuditDelivery
  import opened AuditLoss

  // ----- events of no known temple -----

  lemma {:induction false} ProcessAllLogsKnown(s0: State, s: State, entries: seq<Event>, clock: Id -> int, h: HashFn)
    requires OnlyKnownLogged(s0, s)
    ensures OnlyKnownLogged(s0, ProcessAll(s, entries, clock, h))
  {
    hide NewLog, Acknowledge;
    if entries != [] {
      var n := |entries| - 1;
      ProcessAllLogsKnown(s0, s, entries[..n], clock, h);
      NewLogCarries(ProcessAll(s, entries[..n], clock, h), entries[n], clock(entries[n].id), h);
    }
  }

  ghost predicate OnlyKnownLogged(s0: State, s: State) {
    s.temples == s0.temples && forall x :: x in s.logs ==> x in s0.logs || x.body.temple in s0.temples
  }

  lemma {:induction false} KnownOverRuns(s0: State, actions: seq<Action>, h: HashFn)
    ensures OnlyKnownLogged(s0, Run(s0, actions, h))
  {
    hide ProcessAll, CanFork, IsTerminal, Polled;
    if actions != [] {
      var n := |actions| - 1;
      KnownOverRuns(s0, actions[..n], h);
      var s := Run(s0, actions[..n], h);
      match actions[n]
      case Emit(e) =>
      case Process(clock) => ProcessAllLogsKnown(s0, s, Polled(s), clock, h);
      case Recovery(t, terminal, id, now) =>
    }
  }

  /** Theorem: an event of a temple that does not exist, such as the one under which actions without a temple are
      filed, is never logged, and once the outbox was worked off it is gone. */
  lemma UnknownIsLost(s0: State, actions: seq<Action>, f: Event, clock: Id -> int, h: HashFn)
    requires f.temple !in s0.temples && !HasId(s0.logs, f.id)
    ensures var s := Run(s0, actions, h);
      && (forall x :: x in s.logs ==> !Carries(x, f))
      && !Delivered(Run(s, Batches(clock, Backlog(s, s.outbox)), h), f)
  {
    hide Run, Backlog;
    var s := Run(s0, actions, h);
    var drain := Batches(clock, Backlog(s, s.outbox));
    KnownOverRuns(s0, actions, h);
    KnownOverRuns(s0, actions + drain, h);
    RunConcat(s0, actions, drain, h);
    OutboxDrains(s, clock, h);
  }

  const PLATFORM_EVENT: Event := Event(13, 0, "FEE_CHANGED", "", "")

  /** Theorem: a platform event, filed under temple 0, which does not exist, is deleted after four batches without a
      log, although no temple is ever recovered. */
  lemma PlatformEventIsLost(h: HashFn)
    ensures var s0 := START.(outbox := []);
      var actions := [Emit(PLATFORM_EVENT)] + Batches(Midnight(), 4);
      && Proper(s0, actions, {PLATFORM_EVENT})
      && Run(s0, actions, h).outbox == [] && !Delivered(Run(s0, actions, h), PLATFORM_EVENT)
  {
    hide Run;
    var s0 := START.(outbox := []);
    var emit := [Emit(PLATFORM_EVENT)];
    NoneRun(s0, h);
    LastRun(s0, emit, h);
    assert emit[..0] == [];
    var s := Run(s0, emit, h);
    assert s.outbox == [PLATFORM_EVENT] && [PLATFORM_EVENT][..0] == [];
    assert Backlog(s, s.outbox) == 4;
    UnknownIsLost(s0, emit, PLATFORM_EVENT, Midnight(), h);
    OutboxDrains(s, Midnight(), h);
    RunConcat(s0, emit, Batches(Midnight(), 4), h);
  }

  // ----- ids that are in use -----

  ghost predicate IdsUpTo(s: State, m: Id) {
    && (forall x :: x in s.logs ==> x.body.id <= m)
    && (forall e :: e in s.outbox ==> e.id <= m)
    && (forall i :: i in s.failures ==> i <= m)
  }

  /** No log, no outbox entry and no failure has the id. */
  ghost predicate Unused(s: State, id: Id) {
    !HasId(s.logs, id) && !Pending(s, id) && id !in s.failures
  }

  /** The action brings none of these ids. */
  predicate Brings(a: Action, id: Id) {
    match a
    case Emit(e) => e.id == id
    case Process(_) => false
    case Recovery(_, _, genesisId, _) => genesisId == id
  }

  lemma ProcessEntryIds(s: State, e: Event, now: int, id: Id, h: HashFn)
    requires Unused(s, id) && e.id != id
    ensures Unused(ProcessEntry(s, e, now, h), id)
  {
    hide NewLog, Acknowledge;
    NewLogCarries(s, e, now, h);
    AcknowledgeRemoves(s.outbox, e.id);
  }

  lemma {:induction false} ProcessAllIds(s: State, entries: seq<Event>, clock: Id -> int, id: Id, h: HashFn)
    requires Unused(s, id) && forall e :: e in entries ==> e.id != id
    ensures Unused(ProcessAll(s, entries, clock, h), id)
  {
    hide ProcessEntry, Unused;
    if entries != [] {
      var n := |entries| - 1;
      assert entries[n] in entries;
      ProcessAllIds(s, entries[..n], clock, id, h);
      ProcessEntryIds(ProcessAll(s, entries[..n], clock, h), entries[n], clock(entries[n].id), id, h);
    }
  }

  /** An id stays unused as long as no step brings it. */
  lemma {:induction false} StaysUnused(s: State, actions: seq<Action>, id: Id, h: HashFn)
    requires Unused(s, id) && forall a :: a in actions ==> !Brings(a, id)
    ensures Unused(Run(s, actions, h), id)
  {
    hide ProcessAll, CanFork, IsTerminal;
    if actions != [] {
      var n := |actions| - 1;
      assert actions[n] in actions;
      StaysUnused(s, actions[..n], id, h);
      var m := Run(s, actions[..n], h);
      match actions[n]
      case Emit(e) =>
      case Process(clock) =>
        assert forall e :: e in Polled(m) ==> e in m.outbox;
        ProcessAllIds(m, Polled(m), clock, id, h);
      case Recovery(t, terminal, genesisId, now) =>
    }
  }

  // ----- filling a fork -----

  /** New events of the temple, each processed at once. */
  function Feed(t: Id, m: Id, n: nat, clock: Id -> int): seq<Action> {
    if n == 0 then []
    else Feed(t, m, n - 1, clock) + [Emit(FreshEvents(t, m, n)[n - 1]), Process(clock)]
  }

  lemma {:induction false} FeedContents(t: Id, m: Id, n: nat, clock: Id -> int, a: Action)
    requires a in Feed(t, m, n, clock)
    ensures !a.Recovery?
    ensures a.Emit? ==> a.event in FreshEvents(t, m, n) && m < a.event.id <= m + n
  {
    var last := FreshEvents(t, m, n)[n - 1];
    if a in Feed(t, m, n - 1, clock) {
      FeedContents(t, m, n - 1, clock, a);
      if a.Emit? {
        var i :| 0 <= i < n - 1 && FreshEvents(t, m, n - 1)[i] == a.event;
        assert FreshEvents(t, m, n)[i] == a.event;
      }
    } else {
      assert last in FreshEvents(t, m, n);
    }
  }

  /** A recovered temple that is not stuck takes one more event. */
  lemma FeedOne(s0: State, s: State, e: Event, clock: Id -> int, h: HashFn)
    requires Invariant(s0, s, e.temple, h) && Recovered(s, e.temple) && !Stuck(s, e.temple) && e.temple in s.temples
    requires s.outbox == [] && Unused(s, e.id)
    ensures var w := Step(Step(s, Emit(e), h), Process(clock), h);
      w.outbox == [] && |V2(w, e.temple)| == |V2(s, e.temple)| + 1
  {
    hide SortByIndex, Intact, Chain, VersionsFor, FirstActive, NextIndex, PreviousHash, IsFork, IsTopHash, ProcessAll,
      Polled;
    var m := Enqueue(s, e);
    assert m.outbox == [e];
    OneEntry(m, e, clock, h);
    ActiveIs(m, e.temple);
    var x := NewLog(m, e, clock(e.id), h);
    AcknowledgeAlone(e);
    ChainAppend(m.logs, x, e.temple, 2);
  }

  /** Fed with new events, a recovered temple gets stuck or takes them all. */
  lemma {:induction false} FeedsOrSticks(s0: State, run: seq<Action>, t: Id, m: Id, n: nat, clock: Id -> int, h: HashFn)
    requires Migrated(s0) && t in s0.temples
    requires var s := Run(s0, run, h); s.outbox == [] && Recovered(s, t) && IdsUpTo(s, m)
    ensures var s := Run(s0, run, h); var w := Run(s, Feed(t, m, n, clock), h);
      || (exists j: nat :: j <= n && SticksAfter(s, t, m, j, clock, h))
      || (w.outbox == [] && |V2(w, t)| == |V2(s, t)| + n)
  {
    hide Run, Invariant, Recovered, V2, Stuck, Step;
    var s := Run(s0, run, h);
    NoneRun(s, h);
    if n > 0 {
      FeedsOrSticks(s0, run, t, m, n - 1, clock, h);
      var front := Feed(t, m, n - 1, clock);
      var w := Run(s, front, h);
      var e := FreshEvents(t, m, n)[n - 1];
      RunConcat(s, front, [Emit(e), Process(clock)], h);
      TwoSteps(w, Emit(e), Process(clock), h);
      if w.outbox == [] && Stuck(w, t) {
        assert SticksAfter(s, t, m, n - 1, clock, h);
      } else if w.outbox == [] && |V2(w, t)| == |V2(s, t)| + n - 1 {
        RunConcat(s0, run, front, h);
        RunKeeps(s0, run + front, t, h);
        RecoveredStays(s, front, t, h);
        KnownOverRuns(s0, run + front, h);
        forall a | a in front ensures !Brings(a, e.id) {
          FeedContents(t, m, n - 1, clock, a);
        }
        UnusedAbove(s, m, e.id);
        StaysUnused(s, front, e.id, h);
        FeedOne(s0, w, e, clock, h);
      }
    }
  }

  ghost predicate SticksAfter(s: State, t: Id, m: Id, j: nat, clock: Id -> int, h: HashFn) {
    var w := Run(s, Feed(t, m, j, clock), h);
    w.outbox == [] && Stuck(w, t)
  }

  lemma UnusedAbove(s: State, m: Id, id: Id)
    requires IdsUpTo(s, m) && id > m
    ensures Unused(s, id)
  {
  }

  lemma TwoSteps(s: State, a: Action, b: Action, h: HashFn)
    ensures Run(s, [a, b], h) == Step(Step(s, a, h), b, h)
  {
    hide Step, Run;
    assert [a, b][..1] == [a] && [a][..0] == [];
    NoneRun(s, h);
    LastRun(s, [a], h);
    LastRun(s, [a, b], h);
  }

  /** The step that recovers a temple over a registered index r. */
  ghost predicate BadFork(s0: State, before: seq<Action>, fork: Action, t: Id, r: int, h: HashFn) {
    && fork.Recovery? && fork.temple == t && r >= 1 && (t, r) in Run(s0, before, h).registry
    && !Recovered(Run(s0, before, h), t) && Recovered(Run(s0, before + [fork], h), t)
  }

  /** After such a step some number of new events below r makes the temple stuck, whatever came in between. */
  lemma ForkSticks(s0: State, before: seq<Action>, fork: Action, rest: seq<Action>, t: Id, r: int, m: Id,
                   clock: Id -> int, h: HashFn) returns (n: nat)
    requires Migrated(s0) && BadFork(s0, before, fork, t, r, h)
    requires var s := Run(s0, before + [fork] + rest, h); s.outbox == [] && IdsUpTo(s, m)
    ensures var s := Run(s0, before + [fork] + rest, h); n <= r && SticksAfter(s, t, m, n, clock, h)
  {
    hide Run, Invariant, Recovered, V1, V2, Rows, Passes, Stuck, SticksAfter;
    assert fork == Recovery(t, fork.terminal, fork.genesisId, fork.now);
    var run := before + [fork] + rest;
    var s := Run(s0, run, h);
    var feed := Feed(t, m, r, clock);
    RunConcat(s0, before + [fork], rest, h);
    RecoveredStays(Run(s0, before + [fork], h), rest, t, h);
    RecoveredIsKnown(s0, before, t, fork.terminal, fork.genesisId, fork.now, h);
    FeedsOrSticks(s0, run, t, m, r, clock, h);
    ForkIsCapped(s0, before, rest + feed, t, fork.terminal, fork.genesisId, fork.now, r, h);
    RunConcat(Run(s0, before + [fork], h), rest, feed, h);
    n :| n <= r && SticksAfter(s, t, m, n, clock, h);
  }

  // ----- the theorem -----

  /** From step `from` on, the temple is recovered only while the registry holds no index of it. */
  ghost predicate SafelyRecoveredFrom(s0: State, actions: seq<Action>, from: nat, t: Id, h: HashFn) {
    forall k: nat :: from <= k < |actions| && RecoversAt(s0, actions, t, k, h)
      ==> Unregistered(Run(s0, actions[..k], h), t)
  }

  /** Every continuation that emits the event, and does not recover its temple over a registered index, delivers it. */
  ghost predicate AlwaysDelivers(s0: State, run: seq<Action>, f: Event, h: HashFn) {
    forall after: seq<Action>, all: set<Event> ::
      Proper(s0, run + after, all) && f in all && Emitted(s0, run + after, f)
      && SafelyRecoveredFrom(s0, run + after, |run|, f.temple, h)
      ==> Delivered(Run(s0, run + after, h), f)
  }

  lemma RecoversByRecovery(s0: State, actions: seq<Action>, t: Id, k: nat, h: HashFn)
    requires RecoversAt(s0, actions, t, k, h)
    ensures actions[k].Recovery? && actions[k].temple == t
  {
    hide VersionsFor, ProcessAll, Genesis;
    var s := Run(s0, actions[..k], h);
    assert actions[..k + 1][..k] == actions[..k];
    match actions[k]
    case Emit(e) =>
    case Process(clock) => ProcessAllKeepsVersions(s, Polled(s), clock, h);
    case Recovery(u, terminal, id, now) => ForkVersions(s.versions, u, terminal.current, t);
  }

  /** A continuation without recoveries recovers nothing. */
  lemma QuietIsSafe(s0: State, run: seq<Action>, after: seq<Action>, t: Id, h: HashFn)
    requires forall a :: a in after ==> !a.Recovery?
    ensures SafelyRecoveredFrom(s0, run + after, |run|, t, h)
  {
    hide Run, Recovered;
    forall k: nat | |run| <= k < |run + after| ensures !RecoversAt(s0, run + after, t, k, h) {
      assert (run + after)[k] == after[k - |run|] && after[k - |run|] in after;
      if RecoversAt(s0, run + after, t, k, h) {
        RecoversByRecovery(s0, run + after, t, k, h);
      }
    }
  }

  lemma SafeThroughout(s0: State, run: seq<Action>, after: seq<Action>, t: Id, h: HashFn)
    requires SafelyRecovered(s0, run, t, h) && SafelyRecoveredFrom(s0, run + after, |run|, t, h)
    ensures SafelyRecovered(s0, run + after, t, h)
  {
    hide Run, Recovered, Unregistered;
    forall k: nat | k < |run + after| && RecoversAt(s0, run + after, t, k, h)
      ensures Unregistered(Run(s0, (run + after)[..k], h), t)
    {
      if k < |run| {
        assert (run + after)[..k] == run[..k] && (run + after)[..k + 1] == run[..k + 1];
        assert RecoversAt(s0, run, t, k, h);
      }
    }
  }

  /** The event is new: nothing so far has its id. */
  ghost predicate Unseen(s0: State, run: seq<Action>, all: set<Event>, f: Event) {
    !HasId(s0.logs, f.id) && f.id !in PoolIds(all) && f.id !in GenesisIds(run)
  }

  lemma UnseenIsUnused(s0: State, run: seq<Action>, all: set<Event>, f: Event, h: HashFn)
    requires Proper(s0, run, all) && Unseen(s0, run, all, f)
    ensures Unused(Run(s0, run, h), f.id)
  {
    forall a | a in run ensures !Brings(a, f.id) {
      var k :| 0 <= k < |run| && run[k] == a;
      if a.Recovery? {
        assert run[k].genesisId in GenesisIds(run);
      } else if a.Emit? {
        assert run[k].event in all && run[k].event.id in PoolIds(all);
      }
    }
    forall e | e in s0.outbox ensures e.id != f.id {
      assert e in all && e.id in PoolIds(all);
    }
    StaysUnused(s0, run, f.id, h);
  }

  lemma EmittedAt(s0: State, run: seq<Action>, before: seq<Action>, f: Event, rest: seq<Action>)
    ensures Emitted(s0, run + (before + [Emit(f)] + rest), f)
  {
    var actions := run + (before + [Emit(f)] + rest);
    assert actions[|run| + |before|] == Emit(f);
  }

  lemma OneMoreEvent(s0: State, run: seq<Action>, all: set<Event>, more: set<Event>, f: Event, after: seq<Action>)
    requires Proper(s0, run, all) && Unseen(s0, run, all, f)
    requires forall e, g :: e in all + more && g in all + more && e.id == g.id ==> e == g
    requires forall e :: e in more ==> !HasId(s0.logs, e.id) && e.id !in GenesisIds(run) && e.id != f.id
    requires forall a :: a in after ==> !a.Recovery? && (a.Emit? ==> a.event in more || a.event == f)
    ensures Proper(s0, run + after, all + (more + {f}))
  {
    forall e, g | e in all + (more + {f}) && g in all + (more + {f}) && e.id == g.id ensures e == g {
      assert e in all ==> e.id in PoolIds(all);
      assert g in all ==> g.id in PoolIds(all);
    }
    ProperMore(s0, run, all, after, more + {f});
  }

  /** A new event of an unknown temple is lost in the continuation that just emits it. */
  lemma UnknownBreaksPromise(s0: State, run: seq<Action>, all: set<Event>, f: Event, h: HashFn)
    requires Proper(s0, run, all) && Unseen(s0, run, all, f) && f.temple !in s0.temples
    ensures !AlwaysDelivers(s0, run, f, h)
  {
    hide Run, Proper, Emitted, Delivered, Backlog, GenesisIds, Recovered, Unseen;
    var clock := Midnight();
    var s := Run(s0, run + [Emit(f)], h);
    var after := [] + [Emit(f)] + Batches(clock, Backlog(s, s.outbox));
    assert Proper(s0, run + after, all + ({} + {f})) by {
      ProperIds(s0, run, all);
      OneMoreEvent(s0, run, all, {}, f, after);
    }
    assert !HasId(s0.logs, f.id) by { UnseenIsNew(s0, run, all, f); }
    UnknownIsLost(s0, run + [Emit(f)], f, clock, h);
    RunConcat(s0, run + [Emit(f)], Batches(clock, Backlog(s, s.outbox)), h);
    assert run + after == run + [Emit(f)] + Batches(clock, Backlog(s, s.outbox));
    EmittedAt(s0, run, [], f, Batches(clock, Backlog(s, s.outbox)));
    QuietIsSafe(s0, run, after, f.temple, h);
  }

  lemma UnseenIsNew(s0: State, run: seq<Action>, all: set<Event>, f: Event)
    requires Unseen(s0, run, all, f)
    ensures !HasId(s0.logs, f.id)
  {
  }

  lemma ProperIds(s0: State, run: seq<Action>, all: set<Event>)
    requires Proper(s0, run, all)
    ensures Migrated(s0) && forall e, g :: e in all && g in all && e.id == g.id ==> e == g
  {
  }

  /** A number that no id of the run, of the state s or of the event exceeds. */
  lemma Ceiling(s0: State, run: seq<Action>, all: set<Event>, s: State, f: Event) returns (m: Id)
    ensures IdsUpTo(s, m) && f.id <= m
    ensures forall e :: e in all ==> e.id <= m
    ensures forall x :: x in s0.logs ==> x.body.id <= m
    ensures forall i :: i in GenesisIds(run) ==> i <= m
  {
    var waiting := set e | e in s.outbox;
    var low := LargestId(s0, s, run, all + waiting + {f});
    var high := Bound(s.failures.Keys);
    m := if low < high then high else low;
    assert forall e :: e in s.outbox ==> e in all + waiting + {f};
    assert f in all + waiting + {f};
  }

  /** After a recovery over a registered index a new event is lost in the continuation that first empties the
      outbox, then fills version 2 up, and then emits the event. */
  lemma ForkBreaksPromiseOf(s0: State, run: seq<Action>, all: set<Event>, f: Event, k: nat, r: int, h: HashFn)
    requires Proper(s0, run, all) && Unseen(s0, run, all, f)
    requires k < |run| && BadFork(s0, run[..k], run[k], f.temple, r, h)
    ensures !AlwaysDelivers(s0, run, f, h)
  {
    hide Run, Proper, Emitted, Delivered, Backlog, GenesisIds, Recovered, Unseen, Stuck, BadFork, IdsUpTo, Unused;
    ProperIds(s0, run, all);
    var t, clock := f.temple, Midnight();
    var s := Run(s0, run, h);
    var drain := Batches(clock, Backlog(s, s.outbox));
    OutboxDrains(s, clock, h);
    RunConcat(s0, run, drain, h);
    var m := Ceiling(s0, run, all, Run(s0, run + drain, h), f);
    var rest := run[k + 1..] + drain;
    assert run + drain == run[..k] + [run[k]] + rest;
    var n := ForkSticks(s0, run[..k], run[k], rest, t, r, m, clock, h);
    var feed := Feed(t, m, n, clock);
    assert Unused(Run(s0, run + drain + feed, h), f.id) by {
      UnseenIsUnused(s0, run, all, f, h);
      FillingKeepsUnused(s, drain, t, m, n, clock, f.id, h);
      RunConcat(s0, run, drain + feed, h);
      assert run + drain + feed == run + (drain + feed);
    }
    LosesNext(s0, run + drain, t, m, n, f, clock, h);
    FillsProperly(s0, run, all, f, m, n, clock, |drain|);
    var after := drain + feed + [Emit(f)] + Batches(clock, 4);
    assert run + after == run + drain + feed + [Emit(f)] + Batches(clock, 4);
    EmittedAt(s0, run, drain + feed, f, Batches(clock, 4));
    forall a | a in after ensures !a.Recovery? {
      FillingIsQuiet(t, m, n, clock, |drain|, f, a);
    }
    QuietIsSafe(s0, run, after, t, h);
  }

  lemma FillingKeepsUnused(s: State, drain: seq<Action>, t: Id, m: Id, n: nat, clock: Id -> int, id: Id, h: HashFn)
    requires Unused(s, id) && id <= m && forall a :: a in drain ==> a.Process?
    ensures Unused(Run(s, drain + Feed(t, m, n, clock), h), id)
  {
    forall a | a in drain + Feed(t, m, n, clock) ensures !Brings(a, id) {
      if a !in drain {
        FeedContents(t, m, n, clock, a);
      }
    }
    StaysUnused(s, drain + Feed(t, m, n, clock), id, h);
  }

  /** Once the temple is stuck, the next event is lost. */
  lemma LosesNext(s0: State, run: seq<Action>, t: Id, m: Id, n: nat, f: Event, clock: Id -> int, h: HashFn)
    requires Migrated(s0) && f.temple == t
    requires SticksAfter(Run(s0, run, h), t, m, n, clock, h)
    requires Unused(Run(s0, run + Feed(t, m, n, clock), h), f.id)
    ensures !Delivered(Run(s0, run + Feed(t, m, n, clock) + [Emit(f)] + Batches(clock, 4), h), f)
  {
    hide Run, Stuck, Delivered;
    var feed := Feed(t, m, n, clock);
    RunConcat(s0, run, feed, h);
    var w := Run(s0, run + feed, h);
    LastRun(s0, run + feed + [Emit(f)], h);
    assert (run + feed + [Emit(f)])[..|run + feed|] == run + feed;
    QueuedAlone(w, f);
    StuckDrops(s0, run + feed + [Emit(f)], f, clock, h);
    RunConcat(s0, run + feed + [Emit(f)], Batches(clock, 4), h);
  }

  lemma FillingIsQuiet(t: Id, m: Id, n: nat, clock: Id -> int, d: nat, f: Event, a: Action)
    requires a in Batches(clock, d) + Feed(t, m, n, clock) + [Emit(f)] + Batches(clock, 4)
    ensures !a.Recovery? && (a.Emit? ==> a.event in FreshEvents(t, m, n) || a.event == f)
  {
    if a in Feed(t, m, n, clock) {
      FeedContents(t, m, n, clock, a);
    }
  }

  lemma FillsProperly(s0: State, run: seq<Action>, all: set<Event>, f: Event, m: Id, n: nat, clock: Id -> int, d: nat)
    requires Proper(s0, run, all) && Unseen(s0, run, all, f) && f.id <= m
    requires forall e :: e in all ==> e.id <= m
    requires forall x :: x in s0.logs ==> x.body.id <= m
    requires forall i :: i in GenesisIds(run) ==> i <= m
    ensures var more := set e | e in FreshEvents(f.temple, m, n);
      Proper(s0, run + (Batches(clock, d) + Feed(f.temple, m, n, clock) + [Emit(f)] + Batches(clock, 4)),
          all + (more + {f}))
  {
    hide Proper, Unseen, GenesisIds;
    var more := set e | e in FreshEvents(f.temple, m, n);
    var after := Batches(clock, d) + Feed(f.temple, m, n, clock) + [Emit(f)] + Batches(clock, 4);
    ProperIds(s0, run, all);
    NewIdsDistinct(all, f.temple, m, n);
    forall a | a in after ensures !a.Recovery? && (a.Emit? ==> a.event in more || a.event == f) {
      FillingIsQuiet(f.temple, m, n, clock, d, f, a);
    }
    OneMoreEvent(s0, run, all, more, f, after);
  }

  /** Theorem: after any run, a new event is delivered in every continuation, as long as this recovers its temple
      only while the registry holds no index of it, exactly if its temple exists and the run recovered it only so. */
  lemma EventDeliveredIff(s0: State, run: seq<Action>, all: set<Event>, f: Event, h: HashFn)
    requires Proper(s0, run, all) && Unseen(s0, run, all, f)
    ensures AlwaysDelivers(s0, run, f, h) <==> f.temple in s0.temples && SafelyRecovered(s0, run, f.temple, h)
  {
    hide Run, Proper, Emitted, Delivered, Recovered, Safe, Unseen;
    var t := f.temple;
    if t !in s0.temples {
      UnknownBreaksPromise(s0, run, all, f, h);
    } else if SafelyRecovered(s0, run, t, h) {
      forall after: seq<Action>, pool: set<Event> |
        Proper(s0, run + after, pool) && f in pool && Emitted(s0, run + after, f)
        && SafelyRecoveredFrom(s0, run + after, |run|, t, h)
        ensures Delivered(Run(s0, run + after, h), f)
      {
        SafeThroughout(s0, run, after, t, h);
        DeliveredUnlessForked(s0, run + after, t, pool, f, h);
      }
    } else {
      var k: nat :| k < |run| && RecoversAt(s0, run, t, k, h) && !Unregistered(Run(s0, run[..k], h), t);
      var r: int :| r >= 1 && (t, r) in Run(s0, run[..k], h).registry;
      RecoversByRecovery(s0, run, t, k, h);
      assert run[..k + 1] == run[..k] + [run[k]];
      ForkBreaksPromiseOf(s0, run, all, f, k, r, h);
    }
  }
}
