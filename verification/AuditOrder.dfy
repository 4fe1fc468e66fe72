/** The order of the audit log: the worker takes the oldest entries first, at most fifty at a time, and a temple
    that is not recovered gets its events logged in the order in which they were emitted. */
module AuditOrder {
  import opened Common
  import opened AuditChain
  import opened AuditDelivery

  // ----- one batch -----

  /** A batch is the longest beginning of the outbox of at most fifty entries. */
  lemma BatchIsOldestFirst(s: State)
    ensures Polled(s) <= s.outbox && |Polled(s)| <= 50
    ensures |Polled(s)| == 50 || Polled(s) == s.outbox
  {
  }

  /** The entries behind the first fifty stay at the end of the outbox, in their order, if ids are not shared. */
  lemma {:induction false} RestStaysBehind(s: State, entries: seq<Event>, rest: seq<Event>, clock: Id -> int, h: HashFn)
    requires forall e, f :: e in entries && f in rest ==> e.id != f.id
    requires |rest| <= |s.outbox| && s.outbox[|s.outbox| - |rest|..] == rest
    ensures var w := ProcessAll(s, entries, clock, h);
      |rest| <= |w.outbox| && w.outbox[|w.outbox| - |rest|..] == rest
  {
    hide ProcessEntry;
    if entries != [] {
      var n := |entries| - 1;
      RestStaysBehind(s, entries[..n], rest, clock, h);
      EntryLeavesRest(ProcessAll(s, entries[..n], clock, h), entries[n], clock(entries[n].id), rest, h);
    }
  }

  lemma EntryLeavesRest(s: State, e: Event, now: int, rest: seq<Event>, h: HashFn)
    requires |rest| <= |s.outbox| && s.outbox[|s.outbox| - |rest|..] == rest
    requires forall f :: f in rest ==> e.id != f.id
    ensures var w := ProcessEntry(s, e, now, h);
      |rest| <= |w.outbox| && w.outbox[|w.outbox| - |rest|..] == rest
  {
    hide NewLog, Acknowledge;
    NewLogCarries(s, e, now, h);
    var front := s.outbox[..|s.outbox| - |rest|];
    assert s.outbox == front + rest;
    AcknowledgeLeaves(front, rest, e.id);
  }

  lemma AcknowledgeLast(front: seq<Event>, last: Event, id: Id)
    ensures Acknowledge(front + [last], id)
         == if last.id == id then Acknowledge(front, id) else Acknowledge(front, id) + [last]
  {
    assert (front + [last])[..|front|] == front;
  }

  lemma {:induction false} AcknowledgeLeaves(front: seq<Event>, rest: seq<Event>, id: Id)
    requires forall f :: f in rest ==> f.id != id
    ensures Acknowledge(front + rest, id) == Acknowledge(front, id) + rest
  {
    hide Acknowledge;
    if rest == [] {
      assert front + rest == front;
    } else {
      var more, last := rest[..|rest| - 1], rest[|rest| - 1];
      assert rest == more + [last] && front + rest == (front + more) + [last];
      AcknowledgeLeaves(front, more, id);
      AcknowledgeLast(front + more, last, id);
    }
  }

  // ----- first in, first logged -----

  /** No entry with the second id stands before the first entry with the first id. */
  ghost predicate Queued(outbox: seq<Event>, e: Id, f: Id) {
    forall j :: 0 <= j < |outbox| && outbox[j].id == f ==> exists i :: 0 <= i < j && outbox[i].id == e
  }

  ghost predicate Ahead(s: State, e: Id, f: Id) {
    && (HasId(s.logs, e) || (!HasId(s.logs, f) && Queued(s.outbox, e, f)))
    && forall x, y :: x in s.logs && y in s.logs && x.body.id == e && y.body.id == f ==> x.index < y.index
  }

  lemma QueuedAppend(outbox: seq<Event>, g: Event, e: Id, f: Id)
    ensures Queued(outbox + [g], e, f)
       <==> Queued(outbox, e, f) && (g.id == f ==> exists i :: 0 <= i < |outbox| && outbox[i].id == e)
  {
    var w := outbox + [g];
    if Queued(w, e, f) {
      forall j | 0 <= j < |outbox| && outbox[j].id == f ensures exists i :: 0 <= i < j && outbox[i].id == e {
        assert w[j].id == f;
        var i :| 0 <= i < j && w[i].id == e;
        assert outbox[i].id == e;
      }
      if g.id == f {
        assert w[|outbox|].id == f;
        var i :| 0 <= i < |outbox| && w[i].id == e;
        assert outbox[i].id == e;
      }
    }
    if Queued(outbox, e, f) && (g.id == f ==> exists i :: 0 <= i < |outbox| && outbox[i].id == e) {
      forall j | 0 <= j < |w| && w[j].id == f ensures exists i :: 0 <= i < j && w[i].id == e {
        var i :| 0 <= i < j && i < |outbox| && outbox[i].id == e;
        assert w[i].id == e;
      }
    }
  }

  lemma {:induction false} AcknowledgeKeepsQueued(outbox: seq<Event>, id: Id, e: Id, f: Id)
    requires Queued(outbox, e, f) && id != e
    ensures Queued(Acknowledge(outbox, id), e, f)
  {
    hide Queued;
    if outbox == [] {
      assert Acknowledge(outbox, id) == outbox;
    } else {
      var front, last := outbox[..|outbox| - 1], outbox[|outbox| - 1];
      assert outbox == front + [last];
      QueuedAppend(front, last, e, f);
      AcknowledgeKeepsQueued(front, id, e, f);
      if last.id != id {
        var kept := Acknowledge(front, id);
        AcknowledgeRemoves(front, id);
        QueuedAppend(kept, last, e, f);
        if last.id == f {
          var i :| 0 <= i < |front| && front[i].id == e;
          assert front[i] in front && front[i] in kept;
        }
      }
    }
  }

  /** A new index is above all indices of its chain. */
  lemma NextIsAbove(chain: seq<Log>, x: Log)
    requires x in chain
    ensures x.index < NextIndex(chain)
  {
    hide SortByIndex;
    SortIsOrderedResult(chain);
    var r := SortByIndex(chain);
    assert x in multiset(chain) && x in multiset(r);
    var i :| 0 <= i < |r| && r[i] == x;
  }

  /** All logs of an unrecovered temple are below its next index. */
  lemma LogsAreBelow(s0: State, s: State, e: Event, now: int, x: Log, h: HashFn)
    requires Invariant(s0, s, e.temple, h) && !Recovered(s, e.temple) && x in s.logs && x.body.temple == e.temple
    ensures x.index < NewLog(s, e, now, h).index
  {
    hide SortByIndex, NextIndex, Chain, VersionsFor, FirstActive, Intact, IsFork, IsTopHash;
    ActiveIs(s, e.temple);
    ChainContents(s.logs, e.temple, 2, x);
    ChainContents(s.logs, e.temple, 1, x);
    NextIsAbove(V1(s, e.temple), x);
  }

  lemma ProcessEntryKeepsAhead(s0: State, s: State, g: Event, now: int, t: Id, all: set<Event>, e: Event, f: Event,
                               h: HashFn)
    requires Safe(s0, s, t, all) && Invariant(s0, s, t, h) && !Recovered(s, t) && t in s0.temples
    requires e in all && f in all && g in all && e.temple == t == f.temple && e != f
    requires forall a, b :: a in all && b in all && a.id == b.id ==> a == b
    requires Ahead(s, e.id, f.id) && (g == f ==> HasId(s.logs, e.id))
    ensures var w := ProcessEntry(s, g, now, h);
      Ahead(w, e.id, f.id) && (HasId(s.logs, e.id) || g == e ==> HasId(w.logs, e.id))
  {
    hide NewLog, Acknowledge, Queued, Invariant, RegistryBehind;
    var w := ProcessEntry(s, g, now, h);
    var x := NewLog(s, g, now, h);
    NewLogCarries(s, g, now, h);
    if g.temple == t {
      FreeIndexIsAccepted(s0, s, g, now, all, h);
    }
    if Queued(s.outbox, e.id, f.id) && g != e {
      AcknowledgeKeepsQueued(s.outbox, g.id, e.id, f.id);
    }
    if g == f {
      forall y | y in s.logs && y.body.id == e.id ensures y.index < x.index {
        LogsAreBelow(s0, s, f, now, y, h);
      }
    }
    if w.logs != s.logs {
      assert w == Logged(s, x);
    }
  }

  lemma {:induction false} ProcessAllKeepsAhead(s0: State, s: State, n: nat, clock: Id -> int, t: Id, all: set<Event>,
                                                e: Event, f: Event, h: HashFn)
    requires n <= |s.outbox| && t in s0.temples
    requires forall u :: Invariant(s0, s, u, h)
    requires Safe(s0, s, t, all) && !Recovered(s, t)
    requires e in all && f in all && e.temple == t == f.temple && e != f
    requires forall a, b :: a in all && b in all && a.id == b.id ==> a == b
    requires Ahead(s, e.id, f.id)
    ensures var w := ProcessAll(s, s.outbox[..n], clock, h);
      && Safe(s0, w, t, all) && !Recovered(w, t) && Invariant(s0, w, t, h)
      && Ahead(w, e.id, f.id)
      && (HasId(s.logs, e.id) || (exists i :: 0 <= i < n && s.outbox[i].id == e.id) ==> HasId(w.logs, e.id))
  {
    hide Safe, Invariant, Recovered, ProcessEntry, Ahead;
    BatchFacts(s0, s, n, clock, t, all, e, h);
    if n == 0 {
      assert s.outbox[..0] == [];
      NothingProcessed(s, clock, h);
    } else {
      var g := s.outbox[n - 1];
      var m := ProcessAll(s, s.outbox[..n - 1], clock, h);
      ProcessAllKeepsAhead(s0, s, n - 1, clock, t, all, e, f, h);
      OutboxIsPooled(s0, s, t, all);
      if g == f {
        EarlierIsLogged(s, m, n - 1, e, f);
      }
      ProcessEntryKeepsAhead(s0, m, g, clock(g.id), t, all, e, f, h);
      NextProcessed(s, n, clock, h);
    }
  }

  lemma NothingProcessed(s: State, clock: Id -> int, h: HashFn)
    ensures ProcessAll(s, [], clock, h) == s
  {
  }

  lemma NextProcessed(s: State, n: nat, clock: Id -> int, h: HashFn)
    requires 0 < n <= |s.outbox|
    ensures ProcessAll(s, s.outbox[..n], clock, h)
         == ProcessEntry(ProcessAll(s, s.outbox[..n - 1], clock, h), s.outbox[n - 1], clock(s.outbox[n - 1].id), h)
  {
    assert s.outbox[..n][..n - 1] == s.outbox[..n - 1];
  }

  /** When the second event's turn comes, the first one is logged. */
  lemma EarlierIsLogged(s: State, m: State, n: nat, e: Event, f: Event)
    requires n < |s.outbox| && s.outbox[n] == f && Ahead(s, e.id, f.id)
    requires HasId(s.logs, e.id) || (exists i :: 0 <= i < n && s.outbox[i].id == e.id) ==> HasId(m.logs, e.id)
    ensures HasId(m.logs, e.id)
  {
    if !HasId(s.logs, e.id) {
      assert s.outbox[n].id == f.id;
    }
  }

  /** What a part of a batch leaves as it is. */
  lemma BatchFacts(s0: State, s: State, n: nat, clock: Id -> int, t: Id, all: set<Event>, e: Event, h: HashFn)
    requires n <= |s.outbox| && t in s0.temples && e in all && e.temple == t
    requires (forall u :: Invariant(s0, s, u, h)) && Safe(s0, s, t, all) && !Recovered(s, t)
    requires forall a, b :: a in all && b in all && a.id == b.id ==> a == b
    ensures var w := ProcessAll(s, s.outbox[..n], clock, h);
      Safe(s0, w, t, all) && !Recovered(w, t) && Invariant(s0, w, t, h)
  {
    hide Safe, Invariant, Recovered, ProcessAll;
    var entries := s.outbox[..n];
    OutboxIsPooled(s0, s, t, all);
    ProcessAllIsSafe(s0, s, entries, clock, t, all, e, h);
    ProcessAllKeeps(s0, s, entries, clock, t, h);
    ProcessAllKeepsVersions(s, entries, clock, h);
    SameVersions(s, ProcessAll(s, entries, clock, h), t);
  }

  lemma OutboxIsPooled(s0: State, s: State, t: Id, all: set<Event>)
    requires Safe(s0, s, t, all)
    ensures forall e :: e in s.outbox ==> e in all
  {
  }

  lemma SameVersions(s: State, w: State, t: Id)
    requires w.versions == s.versions
    ensures Recovered(w, t) <==> Recovered(s, t)
  {
  }

  /** The first event was emitted before every emission of the second one. */
  ghost predicate EmittedFirst(s0: State, actions: seq<Action>, e: Event, f: Event) {
    && Queued(s0.outbox, e.id, f.id)
    && forall n :: 0 <= n < |actions| && actions[n] == Emit(f) ==> Emitted(s0, actions[..n], e)
  }

  lemma {:induction false} StaysAhead(s0: State, actions: seq<Action>, t: Id, all: set<Event>, e: Event, f: Event,
                                      h: HashFn)
    requires Proper(s0, actions, all) && t in s0.temples && !Recovered(Run(s0, actions, h), t)
    requires e in all && f in all && e.temple == t == f.temple && e != f && EmittedFirst(s0, actions, e, f)
    ensures Ahead(Run(s0, actions, h), e.id, f.id)
  {
    hide Run, Step, Safe, Invariant, Recovered, Ahead, Queued, Delivered, Emitted;
    if actions == [] {
      NoneRun(s0, h);
      assert Ahead(s0, e.id, f.id) by { StartsAhead(s0, all, e, f); }
    } else {
      var n := |actions| - 1;
      var front := actions[..n];
      var s := Run(s0, front, h);
      assert actions == front + [actions[n]];
      RunConcat(s0, front, [actions[n]], h);
      RecoveredStays(s, [actions[n]], t, h);
      assert Proper(s0, front, all);
      assert EmittedFirst(s0, front, e, f) by {
        forall k | 0 <= k < n && front[k] == Emit(f) ensures Emitted(s0, front[..k], e) {
          assert actions[k] == Emit(f) && front[..k] == actions[..k];
        }
      }
      StaysAhead(s0, front, t, all, e, f, h);
      NeverRecoveredIsSafe(s0, front, t, h);
      DeliveredUnlessForked(s0, front, t, all, e, h);
      forall u ensures Invariant(s0, s, u, h) {
        RunKeeps(s0, front, u, h);
      }
      LastRun(s0, actions, h);
      StepKeepsAhead(s0, s, actions[n], t, all, e, f, h);
    }
  }

  lemma StartsAhead(s0: State, all: set<Event>, e: Event, f: Event)
    requires Proper(s0, [], all) && e in all && f in all && Queued(s0.outbox, e.id, f.id)
    ensures Ahead(s0, e.id, f.id)
  {
    hide Queued;
  }

  lemma NeverRecoveredIsSafe(s0: State, actions: seq<Action>, t: Id, h: HashFn)
    requires !Recovered(Run(s0, actions, h), t)
    ensures SafelyRecovered(s0, actions, t, h)
  {
    hide Run, Recovered;
    forall k: nat | k < |actions| ensures !RecoversAt(s0, actions, t, k, h) {
      assert actions == actions[..k + 1] + actions[k + 1..];
      RunConcat(s0, actions[..k + 1], actions[k + 1..], h);
      RecoveredStays(Run(s0, actions[..k + 1], h), actions[k + 1..], t, h);
    }
  }

  lemma StepKeepsAhead(s0: State, s: State, a: Action, t: Id, all: set<Event>, e: Event, f: Event, h: HashFn)
    requires t in s0.temples && Safe(s0, s, t, all) && (forall u :: Invariant(s0, s, u, h))
    requires !Recovered(s, t) && !Recovered(Step(s, a, h), t)
    requires e in all && f in all && e.temple == t == f.temple && e != f
    requires forall a, b :: a in all && b in all && a.id == b.id ==> a == b
    requires a.Emit? ==> a.event in all
    requires a.Recovery? ==> a.genesisId != e.id && a.genesisId != f.id
    requires a == Emit(f) ==> Delivered(s, e)
    requires Ahead(s, e.id, f.id)
    ensures Ahead(Step(s, a, h), e.id, f.id)
  {
    hide ProcessAll, CanFork, IsTerminal, Safe, Invariant, Recovered, Queued;
    match a
    case Emit(g) =>
      QueuedAppend(s.outbox, g, e.id, f.id);
      if g == f && !HasId(s.logs, e.id) {
        var i :| 0 <= i < |s.outbox| && s.outbox[i] == e;
      }
    case Process(clock) =>
      var n := |Polled(s)|;
      BatchIsOldestFirst(s);
      assert Polled(s) == s.outbox[..n];
      ProcessAllKeepsAhead(s0, s, n, clock, t, all, e, f, h);
    case Recovery(u, terminal, id, now) =>
      assert Genesis(u, id, now, terminal.current, h).body.id == id;
  }

  /** Theorem: over any run, recoveries of other temples included, two events of a known temple that is not
      recovered are logged in the order of their emission: the one emitted first has the smaller index, and the
      other is never logged without it. */
  lemma LoggedInOrder(s0: State, actions: seq<Action>, all: set<Event>, e: Event, f: Event, h: HashFn)
    requires Proper(s0, actions, all) && e in all && f in all && e != f && e.temple == f.temple
    requires e.temple in s0.temples && !Recovered(Run(s0, actions, h), e.temple)
    requires EmittedFirst(s0, actions, e, f)
    ensures var s := Run(s0, actions, h);
      && (forall x, y :: x in s.logs && y in s.logs && Carries(x, e) && Carries(y, f) ==> x.index < y.index)
      && (HasId(s.logs, f.id) ==> HasId(s.logs, e.id))
  {
    hide Run, Recovered;
    StaysAhead(s0, actions, e.temple, all, e, f, h);
  }

  // ----- the time and id of each log -----

  /** A log since the migration was created by a batch, at the batch's time for its id, or is the genesis block of a
      recovery, under the id and at the time the recovery chose. */
  ghost predicate Timed(actions: seq<Action>, x: Log) {
    exists a :: a in actions && Writes(a, x)
  }

  predicate Writes(a: Action, x: Log) {
    match a
    case Emit(_) => false
    case Process(clock) => x.body.created == clock(x.body.id)
    case Recovery(t, _, id, now) => x.body.temple == t && x.body.id == id && x.body.created == now && x.version == 2
  }

  lemma {:induction false} ProcessAllTimed(s: State, entries: seq<Event>, clock: Id -> int, h: HashFn)
    ensures forall x :: x in ProcessAll(s, entries, clock, h).logs ==> x in s.logs || x.body.created == clock(x.body.id)
  {
    hide Acknowledge, NextIndex, PreviousHash, ActiveChain, ActiveVersion;
    if entries != [] {
      ProcessAllTimed(s, entries[..|entries| - 1], clock, h);
    }
  }

  /** Theorem: over any run every new log carries the time of the batch that wrote it, and every genesis block the
      id and the time of its recovery. */
  lemma {:induction false} LogsAreTimed(s0: State, actions: seq<Action>, h: HashFn)
    ensures forall x :: x in Run(s0, actions, h).logs ==> x in s0.logs || Timed(actions, x)
  {
    hide ProcessAll, CanFork, IsTerminal, Polled;
    if actions != [] {
      var n := |actions| - 1;
      var front := actions[..n];
      LogsAreTimed(s0, front, h);
      var s := Run(s0, front, h);
      assert actions == front + [actions[n]] && actions[n] in actions;
      if actions[n].Process? {
        ProcessAllTimed(s, Polled(s), actions[n].clock, h);
      }
      assert forall x :: x in Run(s0, actions, h).logs && x !in s.logs ==> Writes(actions[n], x);
    }
  }

  /** Theorem: a batch leaves the entries behind the first fifty at the end of the outbox. */
  lemma BatchLeavesRest(s: State, clock: Id -> int, h: HashFn)
    requires forall i, j :: 0 <= i < j < |s.outbox| ==> s.outbox[i].id != s.outbox[j].id
    requires |s.outbox| > 50
    ensures var w := Step(s, Process(clock), h); var n := |s.outbox| - 50;
      n <= |w.outbox| && w.outbox[|w.outbox| - n..] == s.outbox[50..]
  {
    hide ProcessAll;
    RestStaysBehind(s, Polled(s), s.outbox[50..], clock, h);
  }
}
