/** The audit tables as the worker, the nightly check and the recovery script change them in place. */
module AuditDatabase {
  import opened Common
  import opened AuditChain
  import opened SequenceAudit

  /** What a recovery run writes to its incident row and its log. */
  datatype Outcome =
    | TempleNotFound
    | NoLogs
    | RolledBack(duplicates: seq<int>, breaks: seq<Break>)
    | Committed(duplicates: seq<int>, breaks: seq<Break>)

  function IndicesOf(logs: seq<Log>): seq<int> {
    seq(|logs|, i requires 0 <= i < |logs| => logs[i].index)
  }

  /** All logs of a temple, whatever their version: the recovery query does not filter by version. */
  function TempleLogs(logs: seq<Log>, t: Id): seq<Log> {
    if logs == [] then []
    else
      var x := logs[|logs| - 1];
      var front := TempleLogs(logs[..|logs| - 1], t);
      if x.body.temple == t then front + [x] else front
  }

  lemma {:induction false} TempleLogsContents(logs: seq<Log>, t: Id, x: Log)
    ensures x in TempleLogs(logs, t) <==> x in logs && x.body.temple == t
  {
    if logs != [] {
      TempleLogsContents(logs[..|logs| - 1], t, x);
      assert logs == logs[..|logs| - 1] + [logs[|logs| - 1]];
    }
  }

  /** The last row of the ordered result is a terminal log. */
  lemma LastIsTerminal(logs: seq<Log>, t: Id, result: seq<Log>)
    requires IsOrderedResult(result, TempleLogs(logs, t)) && result != []
    ensures IsTerminal(logs, t, result[|result| - 1])
  {
    var x := result[|result| - 1];
    assert x in multiset(TempleLogs(logs, t));
    TempleLogsContents(logs, t, x);
    forall y | y in logs && y.body.temple == t ensures y.index <= x.index {
      TempleLogsContents(logs, t, y);
      assert y in multiset(result);
    }
  }

  class AuditTables {
    const h: HashFn
    var temples: set<Id>
    var logs: seq<Log>
    var registry: set<(Id, int)>
    var versions: seq<Version>
    var incidents: seq<Incident>
    var outbox: seq<Event>
    var failures: map<Id, nat>
    var degraded: set<Id>

    function View(): State
      reads this
    {
      State(temples, logs, registry, versions, incidents, outbox, failures, degraded)
    }

    constructor (h: HashFn, s: State)
      ensures this.h == h && View() == s
    {
      this.h := h;
      temples, logs, registry, versions, incidents := s.temples, s.logs, s.registry, s.versions, s.incidents;
      outbox, failures, degraded := s.outbox, s.failures, s.degraded;
    }

    /** One pass of the outbox worker over at most fifty entries. */
    method ProcessOutboxBatch(clock: Id -> int) returns (processed: nat)
      modifies this
      ensures View() == ProcessAll(old(View()), Polled(old(View())), clock, h)
      ensures old(logs) <= logs && processed == |logs| - |old(logs)|
    {
      hide ProcessAll, ProcessEntry;
      ghost var s := View();
      var entries := if |outbox| <= BATCH_LIMIT then outbox else outbox[..BATCH_LIMIT];
      processed := 0;
      ProcessNone(s, clock);
      assert entries[..0] == [];
      for n := 0 to |entries|
        invariant View() == ProcessAll(s, entries[..n], clock, h)
        invariant s.logs <= logs && |logs| == |s.logs| + processed
      {
        ProcessNext(s, entries, n, clock);
        var logged := ProcessOutboxEntry(entries[n], clock(entries[n].id));
        if logged {
          processed := processed + 1;
        }
      }
      assert entries[..|entries|] == entries;
    }

    /** The body of the loop, in a savepoint of its own. */
    method ProcessOutboxEntry(entry: Event, now: int) returns (logged: bool)
      modifies this
      ensures View() == ProcessEntry(old(View()), entry, now, h)
      ensures old(logs) <= logs && |logs| == |old(logs)| + if logged then 1 else 0
    {
      hide NewLog, Acknowledge;
      ghost var s := View();
      var failureCount := if entry.id in failures then failures[entry.id] else 0;
      if failureCount >= POISON_LIMIT {
        failures := failures - {entry.id};
        outbox := Acknowledge(outbox, entry.id);
        return false;
      }
      if HasId(logs, entry.id) {
        outbox := Acknowledge(outbox, entry.id);
        return false;
      }
      var x := NewLog(View(), entry, now, h);
      NewLogIsFor(s, entry, now);
      if entry.temple in temples && (entry.temple, x.index) !in registry {
        registry := registry + {(entry.temple, x.index)};
        logs := logs + [x];
        outbox := Acknowledge(outbox, entry.id);
        failures := failures - {entry.id};
        return true;
      }
      failures := failures[entry.id := failureCount + 1];
      return false;
    }

    lemma ProcessNone(s: State, clock: Id -> int)
      ensures ProcessAll(s, [], clock, h) == s
    {
    }

    lemma ProcessNext(s: State, entries: seq<Event>, n: nat, clock: Id -> int)
      requires n < |entries|
      ensures ProcessAll(s, entries[..n + 1], clock, h)
           == ProcessEntry(ProcessAll(s, entries[..n], clock, h), entries[n], clock(entries[n].id), h)
    {
      assert entries[..n + 1][..n] == entries[..n];
    }

    lemma NewLogIsFor(s: State, e: Event, now: int)
      ensures NewLog(s, e, now, h).body.temple == e.temple && NewLog(s, e, now, h).body.id == e.id
    {
    }

    /** The nightly check of one temple; `result` is the database's answer to the ordered query. */
    method VerifyAuditChain(t: Id, result: seq<Log>) returns (verified: bool, failedAt: nat)
      requires IsOrderedResult(result, ActiveChain(View(), t))
      ensures verified <==> Passes(View(), t, h)
      ensures verified ==> failedAt == |result|
      ensures !verified ==> failedAt < |result| && !Fits(h, result, failedAt)
                            && forall i :: 0 <= i < failedAt ==> Fits(h, result, i)
    {
      hide SortByIndex, ActiveChain;
      VerdictIgnoresTies(h, ActiveChain(View(), t), result);
      verified, failedAt := true, 0;
      while failedAt < |result|
        invariant failedAt <= |result| && verified
        invariant forall i :: 0 <= i < failedAt ==> Fits(h, result, i)
      {
        var log := result[failedAt];
        var expectedIndex := failedAt + 1;
        if log.index != expectedIndex {
          verified := false;
          break;
        }
        var expectedPrev := if expectedIndex == 1 then ZERO_HASH else result[failedAt - 1].current;
        if log.prev != expectedPrev {
          verified := false;
          break;
        }
        if log.current != h(log.body, log.prev) {
          verified := false;
          break;
        }
        assert Fits(h, result, failedAt);
        failedAt := failedAt + 1;
      }
      if !verified {
        assert !Fits(h, result, failedAt);
      }
      assert verified <==> Intact(h, result);
    }

    /** The recovery script: diagnose, then insert four rows in one transaction; a violated constraint undoes them all.
        `result` is the database's answer to "all logs of the temple by index". */
    method RunRecovery(t: Id, result: seq<Log>, genesisId: Id, now: int) returns (outcome: Outcome)
      requires IsOrderedResult(result, TempleLogs(logs, t))
      modifies this
      ensures result == [] ==> View() == old(View())
      ensures result != [] ==> View() == Recover(old(View()), t, result[|result| - 1], genesisId, now, h)
      ensures outcome.Committed? <==> View() != old(View())
      ensures outcome.Committed? || outcome.RolledBack? ==>
        outcome.breaks == Breaks(IndicesOf(result))
        && forall d :: d in outcome.duplicates <==> multiset(IndicesOf(result))[d] > 1
    {
      hide TempleLogs, VersionsFor, Genesis, IsTerminal, Breaks;
      if t !in temples {
        return TempleNotFound;
      }
      if result == [] {
        return NoLogs;
      }
      var last := result[|result| - 1];
      LastIsTerminal(logs, t, result);
      var parentTerminalHash := last.current;
      var duplicates, breaks := FindAnomalies(IndicesOf(result));

      var newIncidents := incidents + [Incident(t, 1, parentTerminalHash)];
      var rows := VersionsFor(versions, t);
      if HasNumber(rows, 1) {
        return RolledBack(duplicates, breaks);
      }
      var newVersions := versions + [SealedRow(t)];
      if HasNumber(rows, 2) || HasActive(rows) {
        return RolledBack(duplicates, breaks);
      }
      newVersions := newVersions + [ForkRow(t, parentTerminalHash)];
      if (t, 1) in registry || KeyTaken(logs, genesisId, now) {
        return RolledBack(duplicates, breaks);
      }
      if t in degraded {
        return RolledBack(duplicates, breaks);
      }
      assert newVersions == versions + [SealedRow(t), ForkRow(t, parentTerminalHash)];
      incidents, versions := newIncidents, newVersions;
      registry := registry + {(t, 1)};
      logs := logs + [Genesis(t, genesisId, now, parentTerminalHash, h)];
      assert |logs| == |old(logs)| + 1;
      return Committed(duplicates, breaks);
    }
  }
}
