/** From the outbox to the chain: nothing is logged that was not emitted, nothing is logged twice, and an event of a
    known temple is not lost unless a recovery finds indices of the temple in the registry. */
module AuditDelivery {
  import opened Common
  import opened AuditChain

  /** The log row says what the event said. */
  predicate Carries(x: Log, e: Event) {
    x.body.id == e.id && x.body.temple == e.temple && x.body.action == e.action && x.body.after == e.after
    && x.context == e.context
  }

  predicate IsGenesis(x: Log) {
    x.version == 2 && x.index == 1 && x.body.action == "INITIALIZE" && x.prev == ZERO_HASH
  }

  /** The pool holds every event of the run. */
  ghost predicate Pools(all: set<Event>, s0: State, actions: seq<Action>) {
    && (forall e :: e in s0.outbox ==> e in all)
    && forall k :: 0 <= k < |actions| && actions[k].Emit? ==> actions[k].event in all
  }

  // ----- nothing is made up -----

  /** Every log is an old one, a genesis block, or carries an event of the pool; the outbox holds events of the pool. */
  ghost predicate Sourced(s0: State, s: State, all: set<Event>) {
    && (forall e :: e in s.outbox ==> e in all)
    && forall x :: x in s.logs ==> x in s0.logs || IsGenesis(x) || exists e :: e in all && Carries(x, e)
  }

  lemma NewLogCarries(s: State, e: Event, now: int, h: HashFn)
    ensures Carries(NewLog(s, e, now, h), e)
  {
  }

  lemma ProcessEntrySourced(s0: State, s: State, e: Event, now: int, all: set<Event>, h: HashFn)
    requires Sourced(s0, s, all) && e in all
    ensures Sourced(s0, ProcessEntry(s, e, now, h), all)
  {
    hide NewLog, Acknowledge;
    NewLogCarries(s, e, now, h);
    AcknowledgeRemoves(s.outbox, e.id);
  }

  lemma {:induction false} ProcessAllSourced(s0: State, s: State, entries: seq<Event>, clock: Id -> int,
                                             all: set<Event>, h: HashFn)
    requires Sourced(s0, s, all) && forall e :: e in entries ==> e in all
    ensures Sourced(s0, ProcessAll(s, entries, clock, h), all)
  {
    hide Sourced, ProcessEntry;
    if entries != [] {
      var n := |entries| - 1;
      ProcessAllSourced(s0, s, entries[..n], clock, all, h);
      assert entries[n] in entries;
      ProcessEntrySourced(s0, ProcessAll(s, entries[..n], clock, h), entries[n], clock(entries[n].id), all, h);
    }
  }

  /** Theorem: over every run, recoveries included, each new log is a genesis block or carries, unchanged, an event
      that was emitted. */
  lemma {:induction false} LogsAreSourced(s0: State, actions: seq<Action>, all: set<Event>, h: HashFn)
    requires Pools(all, s0, actions)
    ensures Sourced(s0, Run(s0, actions, h), all)
  {
    hide ProcessAll, CanFork, IsTerminal;
    if actions != [] {
      var n := |actions| - 1;
      LogsAreSourced(s0, actions[..n], all, h);
      var s := Run(s0, actions[..n], h);
      match actions[n]
      case Emit(e) =>
      case Process(clock) => ProcessAllSourced(s0, s, Polled(s), clock, all, h);
      case Recovery(t, terminal, id, now) => assert IsGenesis(Genesis(t, id, now, terminal.current, h));
    }
  }

  // ----- nothing is logged twice -----

  /** The log rows of an id that came after the migration: at most one, and none if there was one before. */
  ghost predicate LoggedOnceSince(s0: State, s: State, id: Id) {
    && s0.logs <= s.logs
    && forall i, j :: 0 <= i < j < |s.logs| && s.logs[i].body.id == s.logs[j].body.id == id ==> j < |s0.logs|
  }

  lemma ProcessEntryLogsOnce(s0: State, s: State, e: Event, now: int, id: Id, h: HashFn)
    requires LoggedOnceSince(s0, s, id)
    ensures LoggedOnceSince(s0, ProcessEntry(s, e, now, h), id)
  {
    hide NewLog, Acknowledge;
    NewLogCarries(s, e, now, h);
  }

  lemma {:induction false} ProcessAllLogsOnce(s0: State, s: State, entries: seq<Event>, clock: Id -> int, id: Id,
                                              h: HashFn)
    requires LoggedOnceSince(s0, s, id)
    ensures LoggedOnceSince(s0, ProcessAll(s, entries, clock, h), id)
  {
    hide LoggedOnceSince, ProcessEntry;
    if entries != [] {
      var n := |entries| - 1;
      ProcessAllLogsOnce(s0, s, entries[..n], clock, id, h);
      ProcessEntryLogsOnce(s0, ProcessAll(s, entries[..n], clock, h), entries[n], clock(entries[n].id), id, h);
    }
  }

  /** Theorem: over every run no event is logged twice, even if it is emitted again after its delivery. */
  lemma {:induction false} LoggedOnce(s0: State, actions: seq<Action>, id: Id, h: HashFn)
    requires forall k :: 0 <= k < |actions| && actions[k].Recovery? ==> actions[k].genesisId != id
    ensures LoggedOnceSince(s0, Run(s0, actions, h), id)
  {
    hide ProcessAll, CanFork, IsTerminal, Polled;
    if actions != [] {
      var n := |actions| - 1;
      LoggedOnce(s0, actions[..n], id, h);
      var s := Run(s0, actions[..n], h);
      match actions[n]
      case Emit(e) =>
      case Process(clock) => ProcessAllLogsOnce(s0, s, Polled(s), clock, id, h);
      case Recovery(t, terminal, genesisId, now) =>
    }
  }

  // ----- what is delivered -----

  ghost predicate Delivered(s: State, e: Event) {
    e in s.outbox || exists x :: x in s.logs && Carries(x, e)
  }

  ghost predicate Emitted(s0: State, actions: seq<Action>, e: Event) {
    e in s0.outbox || exists k :: 0 <= k < |actions| && actions[k] == Emit(e)
  }

  /** A run from a migrated database whose random identifiers do not clash. */
  ghost predicate Proper(s0: State, actions: seq<Action>, all: set<Event>) {
    && Migrated(s0) && s0.failures == map[] && Pools(all, s0, actions)
    && (forall e, f :: e in all && f in all && e.id == f.id ==> e == f)
    && (forall e :: e in all ==> !HasId(s0.logs, e.id))
    && (forall k, e :: 0 <= k < |actions| && actions[k].Recovery? && e in all ==> actions[k].genesisId != e.id)
  }

  /** The registry holds no index of the temple that a new chain version could reach. */
  ghost predicate Unregistered(s: State, t: Id) {
    forall i: int :: i >= 1 ==> (t, i) !in s.registry
  }

  /** Every registered index of the temple is behind its active chain. */
  ghost predicate RegistryBehind(s: State, t: Id) {
    forall i: int :: (t, i) in s.registry ==> i < NextIndex(ActiveChain(s, t))
  }

  /** Events of the temple have not failed, cannot fail, and are not mistaken for others. */
  ghost predicate Safe(s0: State, s: State, t: Id, all: set<Event>) {
    && s.temples == s0.temples
    && (forall e :: e in s.outbox ==> e in all)
    && (forall e :: e in all && e.temple == t ==> e.id !in s.failures)
    && (forall x, e :: x in s.logs && e in all && x.body.id == e.id ==> Carries(x, e))
    && RegistryBehind(s, t)
  }

  lemma NextAfter(chain: seq<Log>, x: Log)
    requires x.index == NextIndex(chain)
    ensures NextIndex(chain + [x]) == x.index + 1
  {
    SortAppend(chain, x);
  }

  /** A new log of any temple leaves the registry of t behind its active chain. */
  lemma LoggedKeepsBehind(s: State, e: Event, now: int, t: Id, h: HashFn)
    requires RegistryBehind(s, t)
    ensures RegistryBehind(Logged(s, NewLog(s, e, now, h)), t)
  {
    hide Chain, NextIndex, VersionsFor, FirstActive, PreviousHash, Acknowledge;
    var x := NewLog(s, e, now, h);
    ChainAppend(s.logs, x, t, ActiveVersion(s, t));
    if e.temple == t {
      NextAfter(ActiveChain(s, t), x);
    }
  }

  lemma FreeIndexIsAccepted(s0: State, s: State, e: Event, now: int, all: set<Event>, h: HashFn)
    requires Safe(s0, s, e.temple, all) && e.temple in s0.temples
    ensures RegistryAccepts(s, e.temple, NewLog(s, e, now, h).index)
  {
    hide NextIndex, Chain;
  }

  lemma ProcessEntryIsSafe(s0: State, s: State, e: Event, now: int, t: Id, all: set<Event>, f: Event, h: HashFn)
    requires Safe(s0, s, t, all) && e in all && f in all && f.temple == t
    requires forall a, b :: a in all && b in all && a.id == b.id ==> a == b
    requires t in s0.temples
    ensures Safe(s0, ProcessEntry(s, e, now, h), t, all)
    ensures Delivered(s, f) ==> Delivered(ProcessEntry(s, e, now, h), f)
  {
    hide NewLog, Acknowledge, RegistryBehind;
    var w := ProcessEntry(s, e, now, h);
    var x := NewLog(s, e, now, h);
    NewLogCarries(s, e, now, h);
    AcknowledgeRemoves(s.outbox, e.id);
    LoggedKeepsBehind(s, e, now, t, h);
    if e.temple == t {
      FreeIndexIsAccepted(s0, s, e, now, all, h);
    }
    if w.logs == s.logs {
      SameRegistryBehind(s, w, t);
    } else {
      assert w == Logged(s, x) && x in w.logs;
    }
  }

  lemma SameRegistryBehind(s: State, w: State, t: Id)
    requires RegistryBehind(s, t) && w.logs == s.logs && w.registry == s.registry && w.versions == s.versions
    ensures RegistryBehind(w, t)
  {
  }

  lemma {:induction false} ProcessAllIsSafe(s0: State, s: State, entries: seq<Event>, clock: Id -> int, t: Id,
                                            all: set<Event>, f: Event, h: HashFn)
    requires Safe(s0, s, t, all) && f in all && f.temple == t && forall e :: e in entries ==> e in all
    requires forall a, b :: a in all && b in all && a.id == b.id ==> a == b
    requires t in s0.temples
    ensures var w := ProcessAll(s, entries, clock, h);
      Safe(s0, w, t, all) && (Delivered(s, f) ==> Delivered(w, f))
  {
    hide Safe, Delivered, ProcessEntry;
    if entries != [] {
      var n := |entries| - 1;
      ProcessAllIsSafe(s0, s, entries[..n], clock, t, all, f, h);
      assert entries[n] in entries;
      ProcessEntryIsSafe(s0, ProcessAll(s, entries[..n], clock, h), entries[n], clock(entries[n].id), t, all, f, h);
    }
  }

  /** A fork of another temple does not concern t; a fork of t is safe if no positive index of t is registered. */
  lemma ForkIsSafe(s0: State, s: State, u: Id, terminal: Log, id: Id, now: int, t: Id, all: set<Event>, h: HashFn)
    requires Safe(s0, s, t, all) && Invariant(s0, s, t, h) && Invariant(s0, s, u, h)
    requires CanFork(s, u, id, now) && IsTerminal(s.logs, u, terminal)
    requires forall e :: e in all ==> e.id != id
    requires u == t ==> Unregistered(s, t)
    ensures Safe(s0, Forked(s, u, terminal, id, now, h), t, all)
  {
    hide Chain, VersionsFor, IsTopHash, IsTerminal, CanFork, Intact, SortByIndex, NextIndex;
    var w := Forked(s, u, terminal, id, now, h);
    var g := Genesis(u, id, now, terminal.current, h);
    CanForkIff(s0, s, u, id, now, h);
    ForkVersions(s.versions, u, terminal.current, t);
    ForkKeeps(s0, s, u, terminal, id, now, t, h);
    ActiveIs(w, t);
    ActiveIs(s, t);
    ChainAppend(s.logs, g, t, 1);
    ChainAppend(s.logs, g, t, 2);
    if u == t {
      assert ActiveChain(w, t) == [] + [g] == [g];
      EmptyStartsAtOne();
      NextAfter([], g);
    } else {
      assert ActiveChain(w, t) == ActiveChain(s, t);
    }
  }

  /** Step k of the run recovers the temple. */
  ghost predicate RecoversAt(s0: State, actions: seq<Action>, t: Id, k: nat, h: HashFn) {
    k < |actions| && !Recovered(Run(s0, actions[..k], h), t) && Recovered(Run(s0, actions[..k + 1], h), t)
  }

  /** Whenever a step recovers the temple, the registry holds no index of it that the new version could reach. */
  ghost predicate SafelyRecovered(s0: State, actions: seq<Action>, t: Id, h: HashFn) {
    forall k: nat :: k < |actions| && RecoversAt(s0, actions, t, k, h) ==> Unregistered(Run(s0, actions[..k], h), t)
  }

  /** Theorem: an event of a temple is never lost, whatever happens to other temples, unless the temple was
      recovered while the registry held an index of it. */
  lemma {:induction false} DeliveredUnlessForked(s0: State, actions: seq<Action>, t: Id, all: set<Event>, f: Event,
                                                 h: HashFn)
    requires Proper(s0, actions, all) && f in all && f.temple == t && t in s0.temples
    requires SafelyRecovered(s0, actions, t, h)
    ensures Safe(s0, Run(s0, actions, h), t, all)
    ensures Emitted(s0, actions, f) ==> Delivered(Run(s0, actions, h), f)
  {
    hide Safe, Delivered, Run, Step, RecoversAt, Unregistered;
    if actions == [] {
      NoneRun(s0, h);
      StartsSafe(s0, t, all, f);
    } else {
      var n := |actions| - 1;
      var front := actions[..n];
      forall k: nat | k < |front| && RecoversAt(s0, front, t, k, h) ensures Unregistered(Run(s0, front[..k], h), t) {
        RecoversInFront(s0, actions, n, t, k, h);
      }
      assert Proper(s0, front, all);
      DeliveredUnlessForked(s0, front, t, all, f, h);
      LastRun(s0, actions, h);
      StepIsSafe(s0, actions, t, all, f, h);
      if Emitted(s0, actions, f) && actions[n] != Emit(f) {
        assert Emitted(s0, front, f) by { EmittedInFront(s0, actions, f); }
      }
    }
  }

  lemma NoneRun(s0: State, h: HashFn)
    ensures Run(s0, [], h) == s0
  {
  }

  lemma LastRun(s0: State, actions: seq<Action>, h: HashFn)
    requires actions != []
    ensures Run(s0, actions, h) == Step(Run(s0, actions[..|actions| - 1], h), actions[|actions| - 1], h)
  {
  }

  lemma EmittedInFront(s0: State, actions: seq<Action>, f: Event)
    requires actions != [] && Emitted(s0, actions, f) && actions[|actions| - 1] != Emit(f)
    ensures Emitted(s0, actions[..|actions| - 1], f)
  {
    if f !in s0.outbox {
      var k :| 0 <= k < |actions| && actions[k] == Emit(f);
      assert actions[..|actions| - 1][k] == Emit(f);
    }
  }

  lemma RecoversInFront(s0: State, actions: seq<Action>, n: nat, t: Id, k: nat, h: HashFn)
    requires n <= |actions| && RecoversAt(s0, actions[..n], t, k, h)
    ensures RecoversAt(s0, actions, t, k, h) && actions[..n][..k] == actions[..k]
  {
    hide Run;
    assert actions[..n][..k] == actions[..k] && actions[..n][..k + 1] == actions[..k + 1];
  }

  lemma StartsSafe(s0: State, t: Id, all: set<Event>, f: Event)
    requires Proper(s0, [], all)
    ensures Safe(s0, s0, t, all)
    ensures f in s0.outbox ==> Delivered(s0, f)
  {
  }

  lemma StepIsSafe(s0: State, actions: seq<Action>, t: Id, all: set<Event>, f: Event, h: HashFn)
    requires actions != [] && Proper(s0, actions, all) && f in all && f.temple == t && t in s0.temples
    requires var s := Run(s0, actions[..|actions| - 1], h); Safe(s0, s, t, all)
    requires SafelyRecovered(s0, actions, t, h)
    ensures var n := |actions| - 1; var s := Run(s0, actions[..n], h); var w := Step(s, actions[n], h);
      Safe(s0, w, t, all) && (Delivered(s, f) || actions[n] == Emit(f) ==> Delivered(w, f))
  {
    hide Run, CanFork, ProcessAll, Invariant, RegistryBehind, Unregistered, IsTerminal, Forked;
    var n := |actions| - 1;
    var s := Run(s0, actions[..n], h);
    match actions[n]
    case Emit(e) => SameRegistryBehind(s, Enqueue(s, e), t); EmitDelivers(s0, s, e, t, all, f);
    case Process(clock) =>
      assert forall e :: e in Polled(s) ==> e in s.outbox;
      ProcessAllIsSafe(s0, s, Polled(s), clock, t, all, f, h);
    case Recovery(u, terminal, id, now) =>
      if u in s.temples && IsTerminal(s.logs, u, terminal) && CanFork(s, u, id, now) {
        RunKeeps(s0, actions[..n], t, h);
        RunKeeps(s0, actions[..n], u, h);
        if u == t {
          ForkRecovers(s0, s, t, terminal, id, now, h);
          LastRun(s0, actions, h);
          assert actions[..n + 1] == actions;
          assert RecoversAt(s0, actions, t, n, h);
        }
        ForkIsSafe(s0, s, u, terminal, id, now, t, all, h);
        ForkDelivers(s, u, terminal, id, now, f, h);
      }
  }

  /** An emitted event is in the outbox: ids are not shared, so a pending event of its id is the event itself. */
  lemma EmitDelivers(s0: State, s: State, e: Event, t: Id, all: set<Event>, f: Event)
    requires Safe(s0, s, t, all) && e in all && RegistryBehind(Enqueue(s, e), t)
    requires forall a, b :: a in all && b in all && a.id == b.id ==> a == b
    ensures Safe(s0, Enqueue(s, e), t, all)
    ensures Delivered(s, f) || f == e ==> Delivered(Enqueue(s, e), f)
  {
    hide RegistryBehind;
  }

  lemma ForkRecovers(s0: State, s: State, t: Id, terminal: Log, id: Id, now: int, h: HashFn)
    requires Invariant(s0, s, t, h) && CanFork(s, t, id, now)
    ensures !Recovered(s, t) && Recovered(Forked(s, t, terminal, id, now, h), t)
  {
    hide SortByIndex, Chain, Intact, VersionsFor, CanFork, Genesis;
    CanForkIff(s0, s, t, id, now, h);
    ForkVersions(s.versions, t, terminal.current, t);
  }

  lemma ForkDelivers(s: State, u: Id, terminal: Log, id: Id, now: int, f: Event, h: HashFn)
    ensures Delivered(s, f) ==> Delivered(Forked(s, u, terminal, id, now, h), f)
  {
  }

  // ----- temples that are not recovered -----

  lemma {:induction false} ProcessAllKeepsVersions(s: State, entries: seq<Event>, clock: Id -> int, h: HashFn)
    ensures ProcessAll(s, entries, clock, h).versions == s.versions
  {
    if entries != [] {
      ProcessAllKeepsVersions(s, entries[..|entries| - 1], clock, h);
    }
  }

  lemma {:induction false} RecoveredStays(s: State, actions: seq<Action>, t: Id, h: HashFn)
    ensures Recovered(s, t) ==> Recovered(Run(s, actions, h), t)
  {
    hide ProcessAll, VersionsFor, CanFork, Genesis;
    if actions != [] {
      var n := |actions| - 1;
      RecoveredStays(s, actions[..n], t, h);
      var m := Run(s, actions[..n], h);
      match actions[n]
      case Emit(e) =>
      case Process(clock) => ProcessAllKeepsVersions(m, Polled(m), clock, h);
      case Recovery(u, terminal, id, now) => ForkVersions(m.versions, u, terminal.current, t);
    }
  }

  /** Theorem: no event of a temple that is never recovered is ever lost, whatever recoveries other temples go
      through: after any run every emitted event is still in the outbox or carried by a log, and by one only. */
  lemma NoEventLost(s0: State, actions: seq<Action>, all: set<Event>, f: Event, h: HashFn)
    requires Proper(s0, actions, all) && f in all && Emitted(s0, actions, f) && f.temple in s0.temples
    requires !Recovered(Run(s0, actions, h), f.temple)
    ensures Delivered(Run(s0, actions, h), f)
    ensures LoggedOnceSince(s0, Run(s0, actions, h), f.id)
  {
    hide Run, Recovered, Unregistered, Delivered, Safe, LoggedOnceSince;
    forall k: nat | k < |actions| ensures !RecoversAt(s0, actions, f.temple, k, h) {
      assert actions == actions[..k + 1] + actions[k + 1..];
      RunConcat(s0, actions[..k + 1], actions[k + 1..], h);
      RecoveredStays(Run(s0, actions[..k + 1], h), actions[k + 1..], f.temple, h);
    }
    DeliveredUnlessForked(s0, actions, f.temple, all, f, h);
    LoggedOnce(s0, actions, f.id, h);
  }
}
