/** When events are lost: the outbox always drains, and a recovery of a temple with a registered index makes one of
    its later events disappear. */
module AuditLoss {
  import opened Common
  import opened AuditChain
  import opened AuditDelivery

  // ----- the outbox drains -----

  /** How often an entry can still come up: three failures and the removal, less the failures so far. */
  function Attempts(s: State, id: Id): nat {
    if Failures(s, id) >= POISON_LIMIT then 1 else POISON_LIMIT + 1 - Failures(s, id)
  }

  function Backlog(s: State, outbox: seq<Event>): nat {
    if outbox == [] then 0
    else Backlog(s, outbox[..|outbox| - 1]) + Attempts(s, outbox[|outbox| - 1].id)
  }

  lemma {:induction false} BacklogBounds(s: State, outbox: seq<Event>)
    ensures |outbox| <= Backlog(s, outbox) <= (POISON_LIMIT + 1) * |outbox|
  {
    if outbox != [] {
      BacklogBounds(s, outbox[..|outbox| - 1]);
    }
  }

  lemma BacklogAppend(s: State, outbox: seq<Event>, e: Event)
    ensures Backlog(s, outbox + [e]) == Backlog(s, outbox) + Attempts(s, e.id)
  {
    assert (outbox + [e])[..|outbox|] == outbox;
  }

  /** Removing an id never adds work, and saves some if the id was there. */
  lemma {:induction false} AcknowledgeShrinks(s: State, w: State, outbox: seq<Event>, id: Id)
    requires forall other :: other != id ==> Failures(w, other) == Failures(s, other)
    ensures Backlog(w, Acknowledge(outbox, id)) <= Backlog(s, outbox)
    ensures (exists e :: e in outbox && e.id == id) ==> Backlog(w, Acknowledge(outbox, id)) < Backlog(s, outbox)
  {
    hide Attempts, Failures;
    if outbox != [] {
      var front, last := outbox[..|outbox| - 1], outbox[|outbox| - 1];
      assert outbox == front + [last];
      AcknowledgeShrinks(s, w, front, id);
      AttemptsMean(s, w, last.id);
      if last.id != id {
        BacklogAppend(w, Acknowledge(front, id), last);
      }
    }
  }

  lemma AttemptsMean(s: State, w: State, id: Id)
    ensures Attempts(s, id) >= 1
    ensures Failures(w, id) == Failures(s, id) ==> Attempts(w, id) == Attempts(s, id)
  {
  }

  /** A failure leaves its entries in the outbox, with one attempt less. */
  lemma {:induction false} FailureShrinks(s: State, outbox: seq<Event>, id: Id)
    requires Failures(s, id) < POISON_LIMIT
    ensures Backlog(Failed(s, id), outbox) <= Backlog(s, outbox)
    ensures (exists e :: e in outbox && e.id == id) ==> Backlog(Failed(s, id), outbox) < Backlog(s, outbox)
  {
    if outbox != [] {
      var front, last := outbox[..|outbox| - 1], outbox[|outbox| - 1];
      FailureShrinks(s, front, id);
      assert outbox == front + [last];
    }
  }

  lemma ProcessEntryShrinks(s: State, e: Event, now: int, h: HashFn)
    ensures var w := ProcessEntry(s, e, now, h);
      && Backlog(w, w.outbox) <= Backlog(s, s.outbox)
      && (Pending(s, e.id) ==> Backlog(w, w.outbox) < Backlog(s, s.outbox))
  {
    hide NewLog, Backlog, Acknowledge;
    var w := ProcessEntry(s, e, now, h);
    if Failures(s, e.id) >= POISON_LIMIT || HasId(s.logs, e.id)
       || RegistryAccepts(s, e.temple, NewLog(s, e, now, h).index) {
      NewLogCarries(s, e, now, h);
      assert w.outbox == Acknowledge(s.outbox, e.id);
      AcknowledgeShrinks(s, w, s.outbox, e.id);
    } else {
      FailureShrinks(s, s.outbox, e.id);
    }
  }

  lemma {:induction false} ProcessAllShrinks(s: State, entries: seq<Event>, clock: Id -> int, h: HashFn)
    ensures var w := ProcessAll(s, entries, clock, h);
      && Backlog(w, w.outbox) <= Backlog(s, s.outbox)
      && (entries != [] && Pending(s, entries[0].id) ==> Backlog(w, w.outbox) < Backlog(s, s.outbox))
  {
    hide ProcessEntry, Backlog, Pending;
    if entries != [] {
      var n := |entries| - 1;
      ProcessAllShrinks(s, entries[..n], clock, h);
      ProcessEntryShrinks(ProcessAll(s, entries[..n], clock, h), entries[n], clock(entries[n].id), h);
    }
  }

  function Batches(clock: Id -> int, n: nat): seq<Action> {
    seq(n, _ => Process(clock))
  }

  lemma {:induction false} BatchesShrink(s: State, clock: Id -> int, n: nat, h: HashFn)
    ensures var w := Run(s, Batches(clock, n), h);
      w.outbox == [] || Backlog(w, w.outbox) + n <= Backlog(s, s.outbox)
  {
    hide ProcessAll, Backlog;
    if n > 0 {
      BatchesShrink(s, clock, n - 1, h);
      assert Batches(clock, n)[..n - 1] == Batches(clock, n - 1);
      var m := Run(s, Batches(clock, n - 1), h);
      ProcessAllShrinks(m, Polled(m), clock, h);
      if m.outbox == [] {
        NothingToProcess(m, clock, h);
      }
    }
  }

  lemma NothingToProcess(s: State, clock: Id -> int, h: HashFn)
    ensures ProcessAll(s, [], clock, h) == s
  {
  }

  /** Theorem: whatever fails, the outbox is empty after as many batches as it has attempts left, at most four per
      entry: no entry blocks the others for ever. */
  lemma OutboxDrains(s: State, clock: Id -> int, h: HashFn)
    ensures Backlog(s, s.outbox) <= (POISON_LIMIT + 1) * |s.outbox|
    ensures Run(s, Batches(clock, Backlog(s, s.outbox)), h).outbox == []
  {
    var n := Backlog(s, s.outbox);
    var w := Run(s, Batches(clock, n), h);
    BacklogBounds(s, s.outbox);
    BatchesShrink(s, clock, n, h);
    BacklogBounds(w, w.outbox);
  }

  // ----- a stuck temple drops its events -----

  /** Theorem: in a stuck temple a new event that is alone in the outbox is gone after four batches, and no log was
      written. */
  lemma StuckDrops(s0: State, before: seq<Action>, e: Event, clock: Id -> int, h: HashFn)
    requires Migrated(s0)
    requires var s := Run(s0, before, h);
      Stuck(s, e.temple) && s.outbox == [e] && !HasId(s.logs, e.id) && Failures(s, e.id) == 0
    ensures var s := Run(s0, before, h); var w := Run(s, Batches(clock, 4), h);
      w.outbox == [] && w.logs == s.logs && !Delivered(w, e)
  {
    hide Run, Invariant, Stuck, ProcessEntry, HasId, Delivered;
    var s := Run(s0, before, h);
    NoneRun(s, h);
    forall n: nat | n < 4
      ensures Run(s, Batches(clock, n + 1), h) == Step(Run(s, Batches(clock, n), h), Process(clock), h)
    {
      LastRun(s, Batches(clock, n + 1), h);
      assert Batches(clock, n + 1)[..n] == Batches(clock, n);
    }
    assert Batches(clock, 0) == [];
    for k := 0 to 3
      invariant var m := Run(s, Batches(clock, k), h);
        m.outbox == [e] && m.logs == s.logs && Stuck(m, e.temple) && Failures(m, e.id) == k
    {
      OneFailure(s0, before, s, clock, k, e, h);
    }
    OneFailure(s0, before, s, clock, 3, e, h);
    NotCarried(Run(s, Batches(clock, 4), h), e);
  }

  lemma NotCarried(s: State, e: Event)
    requires !HasId(s.logs, e.id) && s.outbox == []
    ensures !Delivered(s, e)
  {
  }

  lemma OneFailure(s0: State, before: seq<Action>, s: State, clock: Id -> int, k: nat, e: Event, h: HashFn)
    requires Migrated(s0) && s == Run(s0, before, h) && k <= POISON_LIMIT
    requires var m := Run(s, Batches(clock, k), h);
      m.outbox == [e] && !HasId(m.logs, e.id) && Stuck(m, e.temple) && Failures(m, e.id) == k
    ensures var m := Run(s, Batches(clock, k), h); var w := Step(m, Process(clock), h);
      && w.logs == m.logs && Stuck(w, e.temple)
      && if k < POISON_LIMIT then w.outbox == [e] && Failures(w, e.id) == k + 1 else w.outbox == []
  {
    hide Run, Invariant, Stuck, ProcessEntry;
    var m := Run(s, Batches(clock, k), h);
    RunConcat(s0, before, Batches(clock, k), h);
    RunKeeps(s0, before + Batches(clock, k), e.temple, h);
    ProcessEntryStaysStuck(s0, m, e, clock(e.id), e.temple, h);
    OneEntry(m, e, clock, h);
    var w := Step(m, Process(clock), h);
    if k == POISON_LIMIT {
      DroppedAlone(m, e, clock(e.id), h);
    }
  }

  lemma AcknowledgeAlone(e: Event)
    ensures Acknowledge([e], e.id) == []
  {
    assert [e][..0] == [];
  }

  lemma DroppedAlone(s: State, e: Event, now: int, h: HashFn)
    requires s.outbox == [e] && Failures(s, e.id) >= POISON_LIMIT
    ensures ProcessEntry(s, e, now, h).outbox == []
  {
    AcknowledgeAlone(e);
  }

  lemma OneEntry(s: State, e: Event, clock: Id -> int, h: HashFn)
    requires s.outbox == [e]
    ensures Step(s, Process(clock), h) == ProcessEntry(s, e, clock(e.id), h)
  {
    hide ProcessEntry;
    assert [e][..0] == [];
    NothingToProcess(s, clock, h);
    assert Polled(s) == [e];
  }

  // ----- a fork over a registered index loses an event -----

  function Emits(events: seq<Event>): seq<Action> {
    seq(|events|, i requires 0 <= i < |events| => Emit(events[i]))
  }

  function IdsOf(chain: seq<Log>): set<Id> {
    set x | x in chain :: x.body.id
  }

  lemma {:induction false} FewIds(chain: seq<Log>)
    ensures |IdsOf(chain)| <= |chain|
  {
    if chain != [] {
      var front, last := chain[..|chain| - 1], chain[|chain| - 1];
      FewIds(front);
      assert chain == front + [last];
      assert IdsOf(chain) == IdsOf(front) + {last.body.id};
    }
  }

  function EventIds(events: seq<Event>): set<Id> {
    set e | e in events :: e.id
  }

  lemma {:induction false} ManyIds(events: seq<Event>)
    requires forall i, j :: 0 <= i < j < |events| ==> events[i].id != events[j].id
    ensures |EventIds(events)| == |events|
  {
    if events != [] {
      var front, last := events[..|events| - 1], events[|events| - 1];
      ManyIds(front);
      assert events == front + [last];
      assert EventIds(events) == EventIds(front) + {last.id};
      assert last.id !in EventIds(front);
    }
  }

  /** New events of t: distinct ids that no log has. */
  ghost predicate New(s: State, t: Id, events: seq<Event>) {
    && (forall i, j :: 0 <= i < j < |events| ==> events[i].id != events[j].id)
    && (forall e :: e in events ==> e.temple == t && !HasId(s.logs, e.id))
  }

  /** A log with a new id is in version 2, if version 1 did not change. */
  lemma NewLogsAreInFork(s0: State, b: State, s: State, t: Id, x: Log, h: HashFn)
    requires Invariant(s0, s, t, h) && V1(s, t) == V1(b, t)
    requires x in s.logs && x.body.temple == t && !HasId(b.logs, x.body.id)
    ensures x in V2(s, t)
  {
    hide Chain, Intact, SortByIndex, VersionsFor, IsFork, IsTopHash;
    ChainContents(s.logs, t, 1, x);
    ChainContents(b.logs, t, 1, x);
    ChainContents(s.logs, t, 2, x);
  }

  /** Theorem: after a recovery of a temple with a registered index r, any r new events of the temple, followed by
      enough batches to empty the outbox, lose one of them. */
  lemma ForkLoses(s0: State, before: seq<Action>, t: Id, terminal: Log, id: Id, now: int, r: int, events: seq<Event>,
                  clock: Id -> int, h: HashFn) returns (lost: Event)
    requires Migrated(s0) && r >= 1
    requires (t, r) in Run(s0, before, h).registry && !Recovered(Run(s0, before, h), t)
    requires Recovered(Run(s0, before + [Recovery(t, terminal, id, now)], h), t)
    requires |events| == r && New(Run(s0, before + [Recovery(t, terminal, id, now)], h), t, events)
    ensures var b := Run(s0, before + [Recovery(t, terminal, id, now)], h); var m := Run(b, Emits(events), h);
      lost in events && !Delivered(Run(b, Emits(events) + Batches(clock, Backlog(m, m.outbox)), h), lost)
  {
    hide Run, Invariant, Recovered, V1, V2, Migrated, Backlog, Stuck, Passes, Rows;
    var fork := before + [Recovery(t, terminal, id, now)];
    var b := Run(s0, fork, h);
    var m := Run(b, Emits(events), h);
    var after := Emits(events) + Batches(clock, Backlog(m, m.outbox));
    var s := Run(b, after, h);
    RunConcat(b, Emits(events), Batches(clock, Backlog(m, m.outbox)), h);
    OutboxDrains(m, clock, h);
    ForkIsCapped(s0, before, after, t, terminal, id, now, r, h);
    RunConcat(s0, fork, after, h);
    RunKeeps(s0, fork + after, t, h);
    lost := MissingEvent(V2(s, t), events);
    forall x | x in s.logs ensures !Carries(x, lost) {
      if Carries(x, lost) {
        NewLogsAreInFork(s0, b, s, t, x, h);
      }
    }
  }

  /** A chain shorter than a list of events lacks one of them. */
  lemma MissingEvent(chain: seq<Log>, events: seq<Event>) returns (lost: Event)
    requires |chain| < |events| && forall i, j :: 0 <= i < j < |events| ==> events[i].id != events[j].id
    ensures lost in events && forall x :: x in chain ==> x.body.id != lost.id
  {
    FewIds(chain);
    ManyIds(events);
    if EventIds(events) <= IdsOf(chain) {
      SubsetIsSmaller(EventIds(events), IdsOf(chain));
      assert false;
    }
    var missing :| missing in EventIds(events) && missing !in IdsOf(chain);
    lost :| lost in events && lost.id == missing;
    forall x | x in chain ensures x.body.id != lost.id {
      assert x.body.id in IdsOf(chain);
    }
  }

  lemma {:induction false} SubsetIsSmaller(a: set<Id>, b: set<Id>)
    requires a <= b
    ensures |a| <= |b|
  {
    assert b == a + (b - a);
  }

  // ----- exactly when a recovered temple keeps its events -----

  /** Every continuation of the run delivers every event of the temple. */
  ghost predicate DeliversFrom(s0: State, run: seq<Action>, t: Id, h: HashFn) {
    forall after: seq<Action>, all: set<Event>, f: Event ::
      Proper(s0, run + after, all) && f in all && f.temple == t && Emitted(s0, run + after, f)
      ==> Delivered(Run(s0, run + after, h), f)
  }

  /** The only step that recovers the temple is the one given. */
  lemma RecoversOnce(s0: State, before: seq<Action>, fork: Action, after: seq<Action>, t: Id, h: HashFn)
    requires !Recovered(Run(s0, before, h), t) && Recovered(Run(s0, before + [fork], h), t)
    requires Unregistered(Run(s0, before, h), t)
    ensures SafelyRecovered(s0, before + [fork] + after, t, h)
  {
    hide Run, Recovered, Unregistered;
    var actions := before + [fork] + after;
    forall k: nat | k < |actions| && k != |before| ensures !RecoversAt(s0, actions, t, k, h) {
      if k < |before| {
        assert before == actions[..k + 1] + before[k + 1..];
        RunConcat(s0, actions[..k + 1], before[k + 1..], h);
        RecoveredStays(Run(s0, actions[..k + 1], h), before[k + 1..], t, h);
      } else {
        var more := actions[|before| + 1..k];
        assert actions[..k] == before + [fork] + more;
        RunConcat(s0, before + [fork], more, h);
        RecoveredStays(Run(s0, before + [fork], h), more, t, h);
      }
    }
    assert actions[..|before|] == before;
  }

  lemma {:induction false} Bound(ids: set<Id>) returns (m: Id)
    ensures forall i :: i in ids ==> i <= m
    decreases |ids|
  {
    if ids == {} {
      m := 0;
    } else {
      var i :| i in ids;
      var rest := Bound(ids - {i});
      m := if rest < i then i else rest;
      assert forall j :: j in ids ==> j == i || j in ids - {i};
    }
  }

  function FreshEvents(t: Id, m: Id, n: nat): seq<Event> {
    seq(n, i requires 0 <= i < n => Event(m + 1 + i, t, "", "", ""))
  }

  function PoolIds(all: set<Event>): set<Id> {
    set e | e in all :: e.id
  }

  function GenesisIds(actions: seq<Action>): set<Id> {
    set k | 0 <= k < |actions| && actions[k].Recovery? :: actions[k].genesisId
  }

  lemma NewIdsDistinct(all: set<Event>, t: Id, m: Id, n: nat)
    requires forall e :: e in all ==> e.id <= m
    requires forall e, f :: e in all && f in all && e.id == f.id ==> e == f
    ensures var more := set e | e in FreshEvents(t, m, n);
      && (forall e :: e in more ==> e.id > m && e.temple == t)
      && (forall e: Event, f: Event :: e in all + more && f in all + more && e.id == f.id ==> e == f)
  {
    var events := FreshEvents(t, m, n);
    var more := set e | e in events;
    forall e: Event, f: Event | e in more && f in more && e.id == f.id ensures e == f {
      var i :| 0 <= i < n && events[i] == e;
      var j :| 0 <= j < n && events[j] == f;
    }
  }

  /** A continuation without recoveries that emits further events under unused ids keeps a run proper. */
  lemma ProperMore(s0: State, run: seq<Action>, all: set<Event>, after: seq<Action>, more: set<Event>)
    requires Proper(s0, run, all)
    requires forall e, f :: e in all + more && f in all + more && e.id == f.id ==> e == f
    requires forall e :: e in more ==> !HasId(s0.logs, e.id) && e.id !in GenesisIds(run)
    requires forall a :: a in after ==> !a.Recovery? && (a.Emit? ==> a.event in all + more)
    ensures Proper(s0, run + after, all + more)
  {
    var actions := run + after;
    forall k | |run| <= k < |actions| ensures actions[k] in after {
      assert actions[k] == after[k - |run|];
    }
    forall k, e | 0 <= k < |actions| && actions[k].Recovery? && e in all + more ensures actions[k].genesisId != e.id {
      assert k < |run| && actions[k].genesisId in GenesisIds(run);
    }
  }

  /** Emitting events with larger ids than all others keeps a run proper. */
  lemma StaysProper(s0: State, run: seq<Action>, all: set<Event>, t: Id, m: Id, n: nat, clock: Id -> int, batches: nat)
    requires Proper(s0, run, all)
    requires forall e :: e in all ==> e.id <= m
    requires forall x :: x in s0.logs ==> x.body.id <= m
    requires forall i :: i in GenesisIds(run) ==> i <= m
    ensures Proper(s0, run + (Emits(FreshEvents(t, m, n)) + Batches(clock, batches)),
                   all + set e | e in FreshEvents(t, m, n))
  {
    hide GenesisIds;
    NewIdsDistinct(all, t, m, n);
    var more := set e | e in FreshEvents(t, m, n);
    ProperMore(s0, run, all, Emits(FreshEvents(t, m, n)) + Batches(clock, batches), more);
  }

  lemma RecoveredIsKnown(s0: State, before: seq<Action>, t: Id, terminal: Log, id: Id, now: int, h: HashFn)
    requires Migrated(s0) && !Recovered(Run(s0, before, h), t)
    requires Recovered(Run(s0, before + [Recovery(t, terminal, id, now)], h), t)
    ensures t in s0.temples
  {
    hide IsTerminal, CanFork, Forked, Recovered;
    RunKeeps(s0, before, t, h);
    LastRun(s0, before + [Recovery(t, terminal, id, now)], h);
    assert (before + [Recovery(t, terminal, id, now)])[..|before|] == before;
  }

  lemma LargestId(s0: State, b: State, run: seq<Action>, all: set<Event>) returns (m: Id)
    ensures forall e :: e in all ==> e.id <= m
    ensures forall x :: x in s0.logs || x in b.logs ==> x.body.id <= m
    ensures forall i :: i in GenesisIds(run) ==> i <= m
  {
    m := Bound(PoolIds(all) + IdsOf(s0.logs + b.logs) + GenesisIds(run));
    forall x | x in s0.logs || x in b.logs ensures x.body.id <= m {
      assert x in s0.logs + b.logs && x.body.id in IdsOf(s0.logs + b.logs);
    }
    forall e | e in all ensures e.id <= m {
      assert e.id in PoolIds(all);
    }
  }

  /** The run that shows a loss after a fork over a registered index. */
  lemma ForkBreaksPromise(s0: State, before: seq<Action>, t: Id, terminal: Log, id: Id, now: int, all: set<Event>,
                          r: int, h: HashFn)
    requires Proper(s0, before + [Recovery(t, terminal, id, now)], all)
    requires !Recovered(Run(s0, before, h), t)
    requires Recovered(Run(s0, before + [Recovery(t, terminal, id, now)], h), t)
    requires r >= 1 && (t, r) in Run(s0, before, h).registry
    ensures !DeliversFrom(s0, before + [Recovery(t, terminal, id, now)], t, h)
  {
    hide Run, Recovered, Proper, Delivered, Backlog, GenesisIds;
    assert Migrated(s0) by { ProperIsMigrated(s0, before + [Recovery(t, terminal, id, now)], all); }
    var fork := before + [Recovery(t, terminal, id, now)];
    var b := Run(s0, fork, h);
    var m := LargestId(s0, b, fork, all);
    var events := FreshEvents(t, m, r);
    assert New(b, t, events);
    var clock := (_: Id) => 0;
    var lost := ForkLoses(s0, before, t, terminal, id, now, r, events, clock, h);
    var n := Backlog(Run(b, Emits(events), h), Run(b, Emits(events), h).outbox);
    var after := Emits(events) + Batches(clock, n);
    StaysProper(s0, fork, all, t, m, r, clock, n);
    RunConcat(s0, fork, after, h);
    var i :| 0 <= i < r && events[i] == lost;
    assert (fork + after)[|fork| + i] == Emit(lost);
    assert Emitted(s0, fork + after, lost);
  }

  lemma ProperIsMigrated(s0: State, actions: seq<Action>, all: set<Event>)
    requires Proper(s0, actions, all)
    ensures Migrated(s0)
  {
  }

  /** Theorem: a recovered temple keeps delivering every one of its events, in every continuation, exactly if the
      registry held no index of it (from 1 on) when the recovery ran. */
  lemma ForkDeliversIff(s0: State, before: seq<Action>, t: Id, terminal: Log, id: Id, now: int, all: set<Event>,
                        h: HashFn)
    requires Proper(s0, before + [Recovery(t, terminal, id, now)], all)
    requires !Recovered(Run(s0, before, h), t)
    requires Recovered(Run(s0, before + [Recovery(t, terminal, id, now)], h), t)
    ensures DeliversFrom(s0, before + [Recovery(t, terminal, id, now)], t, h) <==> Unregistered(Run(s0, before, h), t)
  {
    hide Run, Recovered, Proper, Delivered, Emitted, Safe, SafelyRecovered;
    var fork := before + [Recovery(t, terminal, id, now)];
    assert Migrated(s0) by { ProperIsMigrated(s0, fork, all); }
    RecoveredIsKnown(s0, before, t, terminal, id, now, h);
    if Unregistered(Run(s0, before, h), t) {
      forall after: seq<Action>, pool: set<Event>, f: Event |
        Proper(s0, fork + after, pool) && f in pool && f.temple == t && Emitted(s0, fork + after, f)
        ensures Delivered(Run(s0, fork + after, h), f)
      {
        RecoversOnce(s0, before, Recovery(t, terminal, id, now), after, t, h);
        DeliveredUnlessForked(s0, fork + after, t, pool, f, h);
      }
    } else {
      var r: int :| r >= 1 && (t, r) in Run(s0, before, h).registry;
      ForkBreaksPromise(s0, before, t, terminal, id, now, all, r, h);
    }
  }

  // ----- a run that drops an event -----

  const OLD_LOG: Log := Log(Body(10, 1, "OPEN", 0, ""), "", ZERO_HASH, "", 1, 1)

  const SALE: Event := Event(11, 1, "SELL", "", "")

  const REFUND: Event := Event(12, 1, "REFUND", "", "")

  /** One temple with one log from before the migration, and one event in the outbox. */
  const START: State := State({1}, [OLD_LOG], {}, [], [], [SALE], map[], {})

  function Midnight(): Id -> int { _ => 0 }

  lemma OldLogIsTheChain()
    ensures Chain([OLD_LOG], 1, 1) == [OLD_LOG] && NextIndex([OLD_LOG]) == 2
  {
    assert [OLD_LOG][..0] == [];
    assert SortByIndex([OLD_LOG]) == [OLD_LOG];
  }

  lemma SaleIsLogged(h: HashFn)
    ensures var x := NewLog(START, SALE, 0, h);
      x.index == 2 && x.version == 1 && Step(START, Process(Midnight()), h) == Logged(START, x)
  {
    hide Chain, NextIndex, PreviousHash;
    OldLogIsTheChain();
    OneEntry(START, SALE, Midnight(), h);
  }

  /** A fork whose second index is registered already is stuck behind its genesis block. */
  lemma LateForkIsStuck(s: State, t: Id, terminal: Log, id: Id, now: int, h: HashFn)
    requires VersionsFor(s.versions, t) == [] && V2(s, t) == [] && (t, 2) in s.registry
    ensures Stuck(Forked(s, t, terminal, id, now, h), t)
  {
    hide SortByIndex, NextIndex, VersionsFor, Chain;
    var g := Genesis(t, id, now, terminal.current, h);
    ForkVersions(s.versions, t, terminal.current, t);
    ChainAppend(s.logs, g, t, 2);
    EmptyStartsAtOne();
    NextAfter([], g);
    assert [] + [g] == [g];
  }

  /** After the sale is logged, the temple has no version 2 and can be recovered. */
  lemma SaleAllowsFork(x: Log, h: HashFn)
    requires x.index == 2 && x.version == 1 && x.body.temple == 1 && x.body.id == 11
    ensures var s := Logged(START, x);
      && IsTerminal(s.logs, 1, x) && CanFork(s, 1, 9, 0) && VersionsFor(s.versions, 1) == [] && V2(s, 1) == []
      && (1, 2) in s.registry && s.outbox == [] && s.failures == map[] && 1 in s.temples && !HasId(s.logs, 12)
  {
    hide SortByIndex, NextIndex, FirstActive, Chain;
    ChainAppend([], OLD_LOG, 1, 2);
    ChainAppend([OLD_LOG], x, 1, 2);
    assert Chain([], 1, 2) == [] by { EmptyChain(1, 2); }
    assert [] + [OLD_LOG] == [OLD_LOG] && [OLD_LOG] + [x] == Logged(START, x).logs;
    AcknowledgeAlone(SALE);
  }

  lemma EmptyChain(t: Id, v: int)
    ensures Chain([], t, v) == []
  {
  }

  /** The sale registered index 2, so the recovered temple is stuck behind its genesis block. */
  lemma SaleBlocksFork(h: HashFn)
    ensures var x := NewLog(START, SALE, 0, h); var s := Logged(START, x); var w := Forked(s, 1, x, 9, 0, h);
      Step(s, Recovery(1, x, 9, 0), h) == w && Stuck(w, 1) && w.outbox == [] && !HasId(w.logs, 12)
          && Failures(w, 12) == 0
  {
    hide NewLog, Logged, CanFork, IsTerminal, Stuck, VersionsFor, V2;
    var x := NewLog(START, SALE, 0, h);
    SaleIsLogged(h);
    NewLogCarries(START, SALE, 0, h);
    SaleAllowsFork(x, h);
    LateForkIsStuck(Logged(START, x), 1, x, 9, 0, h);
  }

  function DroppingRun(h: HashFn): seq<Action> {
    [Process(Midnight()), Recovery(1, NewLog(START, SALE, 0, h), 9, 0), Emit(REFUND)] + Batches(Midnight(), 4)
  }

  /** Theorem: the sale is logged, the temple is recovered, and the refund fails three times and is deleted: it is
      in no log. */
  lemma RefundIsLost(h: HashFn)
    ensures Proper(START, DroppingRun(h), {SALE, REFUND})
    ensures var w := Run(START, DroppingRun(h), h); w.outbox == [] && !Delivered(w, REFUND)
  {
    hide Run, Stuck, NewLog, Forked, Logged;
    var x := NewLog(START, SALE, 0, h);
    var steps := [Process(Midnight()), Recovery(1, x, 9, 0), Emit(REFUND)];
    SaleIsLogged(h);
    SaleBlocksFork(h);
    ThreeSteps(START, steps, h);
    var s := Run(START, steps, h);
    QueuedAlone(Forked(Logged(START, x), 1, x, 9, 0, h), REFUND);
    StuckDrops(START, steps, REFUND, Midnight(), h);
    RunConcat(START, steps, Batches(Midnight(), 4), h);
  }

  lemma QueuedAlone(s: State, e: Event)
    requires Stuck(s, e.temple) && s.outbox == []
    ensures var w := Enqueue(s, e);
      Stuck(w, e.temple) && w.outbox == [e] && w.logs == s.logs && w.failures == s.failures
  {
    hide Chain, VersionsFor, NextIndex;
  }

  lemma ThreeSteps(s: State, steps: seq<Action>, h: HashFn)
    requires |steps| == 3
    ensures Run(s, steps, h) == Step(Step(Step(s, steps[0], h), steps[1], h), steps[2], h)
  {
    hide Step, Run;
    assert steps[..2][..1] == steps[..1] && steps[..1][..0] == [];
    NoneRun(s, h);
    LastRun(s, steps[..1], h);
    LastRun(s, steps[..2], h);
    LastRun(s, steps, h);
  }
}
