/** The hash-linked audit log: outbox processing, chain verification, and recovery by forking a new chain version.

    The hash is an arbitrary function; nothing below depends on what it computes, except where a lemma says so. */
module AuditChain {
  import opened Common

  type Hash = string

  const ZERO_HASH: Hash := "0000000000000000000000000000000000000000000000000000000000000000"

  /** The columns that enter the hash. */
  datatype Body = Body(id: Id, temple: Id, action: string, created: int, after: string)

  type HashFn = (Body, Hash) -> Hash

  /** A log row; `context` stands for every stored column outside the hash (actor, description, addresses, ...). */
  datatype Log = Log(body: Body, context: string, prev: Hash, current: Hash, index: int, version: int)

  datatype Event = Event(id: Id, temple: Id, action: string, after: string, context: string)

  datatype Status = ACTIVE | SEALED

  datatype Parent = Parent(version: int, terminalHash: Hash)

  datatype Version = Version(temple: Id, number: int, status: Status, parent: Option<Parent>)

  datatype Incident = Incident(temple: Id, version: int, terminalHash: Hash)

  /** The tables, and the worker's in-memory failure counts. `degraded` are the temples in the operational state
      DEGRADED, which no transition enters or leaves. */
  datatype State = State(
    temples: set<Id>, logs: seq<Log>, registry: set<(Id, int)>, versions: seq<Version>, incidents: seq<Incident>,
    outbox: seq<Event>, failures: map<Id, nat>, degraded: set<Id>)

  const POISON_LIMIT := 3

  const BATCH_LIMIT := 50

  // ----- queries -----

  /** The rows of one chain, in insertion order. */
  function Chain(logs: seq<Log>, t: Id, v: int): seq<Log> {
    if logs == [] then []
    else
      var x := logs[|logs| - 1];
      var front := Chain(logs[..|logs| - 1], t, v);
      if x.body.temple == t && x.version == v then front + [x] else front
  }

  function Insert(sorted: seq<Log>, x: Log): seq<Log> {
    if sorted == [] || sorted[|sorted| - 1].index <= x.index then sorted + [x]
    else Insert(sorted[..|sorted| - 1], x) + [sorted[|sorted| - 1]]
  }

  /** ORDER BY audit_chain_index, ties in insertion order. */
  function SortByIndex(chain: seq<Log>): seq<Log> {
    if chain == [] then []
    else Insert(SortByIndex(chain[..|chain| - 1]), chain[|chain| - 1])
  }

  ghost predicate Sorted(r: seq<Log>) {
    forall i, j :: 0 <= i < j < |r| ==> r[i].index <= r[j].index
  }

  /** Any answer the database may give to the ordered query. */
  ghost predicate IsOrderedResult(r: seq<Log>, chain: seq<Log>) {
    Sorted(r) && multiset(r) == multiset(chain)
  }

  function VersionsFor(versions: seq<Version>, t: Id): seq<Version> {
    if versions == [] then []
    else
      var x := versions[|versions| - 1];
      var front := VersionsFor(versions[..|versions| - 1], t);
      if x.temple == t then front + [x] else front
  }

  /** The first active row's number, or 1. */
  function FirstActive(rows: seq<Version>): int {
    if rows == [] then 1
    else if rows[0].status == ACTIVE then (if rows[0].number == 0 then 1 else rows[0].number)
    else FirstActive(rows[1..])
  }

  function ActiveVersion(s: State, t: Id): int { FirstActive(VersionsFor(s.versions, t)) }

  function ActiveChain(s: State, t: Id): seq<Log> { Chain(s.logs, t, ActiveVersion(s, t)) }

  // ----- outbox processing -----

  function NextIndex(chain: seq<Log>): int {
    var r := SortByIndex(chain);
    if r == [] then 1 else r[|r| - 1].index + 1
  }

  function PreviousHash(chain: seq<Log>): Hash {
    var r := SortByIndex(chain);
    if r == [] then ZERO_HASH else r[|r| - 1].current
  }

  predicate HasId(logs: seq<Log>, id: Id) {
    exists x :: x in logs && x.body.id == id
  }

  function Acknowledge(outbox: seq<Event>, id: Id): seq<Event> {
    if outbox == [] then []
    else
      var front := Acknowledge(outbox[..|outbox| - 1], id);
      if outbox[|outbox| - 1].id == id then front else front + [outbox[|outbox| - 1]]
  }

  function Failures(s: State, id: Id): nat { if id in s.failures then s.failures[id] else 0 }

  function NewLog(s: State, e: Event, now: int, h: HashFn): Log {
    var chain := ActiveChain(s, e.temple);
    var body := Body(e.id, e.temple, e.action, now, e.after);
    var prev := PreviousHash(chain);
    Log(body, e.context, prev, h(body, prev), NextIndex(chain), ActiveVersion(s, e.temple))
  }

  /** What the registry's foreign key and primary key demand of a new index. */
  predicate RegistryAccepts(s: State, t: Id, index: int) {
    t in s.temples && (t, index) !in s.registry
  }

  function Dropped(s: State, id: Id): State {
    State(s.temples, s.logs, s.registry, s.versions, s.incidents, Acknowledge(s.outbox, id), s.failures - {id},
        s.degraded)
  }

  function Logged(s: State, x: Log): State {
    State(s.temples, s.logs + [x], s.registry + {(x.body.temple, x.index)}, s.versions, s.incidents,
          Acknowledge(s.outbox, x.body.id), s.failures - {x.body.id}, s.degraded)
  }

  function Failed(s: State, id: Id): State {
    State(s.temples, s.logs, s.registry, s.versions, s.incidents, s.outbox, s.failures[id := Failures(s, id) + 1],
          s.degraded)
  }

  /** One iteration: each entry runs in a savepoint of its own. */
  function ProcessEntry(s: State, e: Event, now: int, h: HashFn): State {
    if Failures(s, e.id) >= POISON_LIMIT then Dropped(s, e.id)
    else if HasId(s.logs, e.id) then s.(outbox := Acknowledge(s.outbox, e.id))
    else if RegistryAccepts(s, e.temple, NewLog(s, e, now, h).index) then Logged(s, NewLog(s, e, now, h))
    else Failed(s, e.id)
  }

  function ProcessAll(s: State, entries: seq<Event>, clock: Id -> int, h: HashFn): State {
    if entries == [] then s
    else
      var n := |entries| - 1;
      ProcessEntry(ProcessAll(s, entries[..n], clock, h), entries[n], clock(entries[n].id), h)
  }

  /** The polled batch. */
  function Polled(s: State): seq<Event> {
    if |s.outbox| <= BATCH_LIMIT then s.outbox else s.outbox[..BATCH_LIMIT]
  }

  predicate Pending(s: State, id: Id) {
    exists e :: e in s.outbox && e.id == id
  }

  function Enqueue(s: State, e: Event): State {
    if Pending(s, e.id) then s else s.(outbox := s.outbox + [e])
  }

  // ----- recovery -----

  /** A possible last row of "all logs of the temple by index". */
  ghost predicate IsTerminal(logs: seq<Log>, t: Id, x: Log) {
    && x in logs && x.body.temple == t
    && forall y :: y in logs && y.body.temple == t ==> y.index <= x.index
  }

  function GenesisPayload(parent: Hash): string {
    "{\"parent_chain_version\": 1, \"parent_terminal_hash\": \"" + parent + "\"}"
  }

  function Genesis(t: Id, id: Id, now: int, parent: Hash, h: HashFn): Log {
    var body := Body(id, t, "INITIALIZE", now, GenesisPayload(parent));
    Log(body, "Audit Recovery Agent", ZERO_HASH, h(body, ZERO_HASH), 1, 2)
  }

  predicate HasNumber(rows: seq<Version>, n: int) { exists v :: v in rows && v.number == n }

  predicate HasActive(rows: seq<Version>) { exists v :: v in rows && v.status == ACTIVE }

  function SealedRow(t: Id): Version { Version(t, 1, SEALED, None) }

  function ForkRow(t: Id, parent: Hash): Version { Version(t, 2, ACTIVE, Some(Parent(1, parent))) }

  /** The log table's primary key. */
  predicate KeyTaken(logs: seq<Log>, id: Id, created: int) {
    exists x :: x in logs && x.body.id == id && x.body.created == created
  }

  /** Everything that can stop a recovery between the first insert and the commit: the constraints, and the
      transition back to ACTIVE. */
  predicate CanFork(s: State, t: Id, id: Id, now: int) {
    var rows := VersionsFor(s.versions, t);
    && !HasNumber(rows, 1) && !HasNumber(rows, 2) && !HasActive(rows)
    && RegistryAccepts(s, t, 1)
    && !KeyTaken(s.logs, id, now)
    && t !in s.degraded
  }

  function Forked(s: State, t: Id, terminal: Log, id: Id, now: int, h: HashFn): State {
    s.(incidents := s.incidents + [Incident(t, 1, terminal.current)],
       versions := s.versions + [SealedRow(t), ForkRow(t, terminal.current)],
       registry := s.registry + {(t, 1)},
       logs := s.logs + [Genesis(t, id, now, terminal.current, h)])
  }

  /** One recovery run whose ordered query ended in `terminal`. */
  ghost function Recover(s: State, t: Id, terminal: Log, id: Id, now: int, h: HashFn): State {
    if t in s.temples && IsTerminal(s.logs, t, terminal) && CanFork(s, t, id, now)
    then Forked(s, t, terminal, id, now, h)
    else s
  }

  // ----- runs -----

  datatype Action =
    | Emit(event: Event)
    | Process(clock: Id -> int)
    | Recovery(temple: Id, terminal: Log, genesisId: Id, now: int)

  ghost function Step(s: State, a: Action, h: HashFn): State {
    match a
    case Emit(e) => Enqueue(s, e)
    case Process(clock) => ProcessAll(s, Polled(s), clock, h)
    case Recovery(t, terminal, id, now) => Recover(s, t, terminal, id, now, h)
  }

  ghost function Run(s: State, actions: seq<Action>, h: HashFn): State {
    if actions == [] then s
    else Step(Run(s, actions[..|actions| - 1], h), actions[|actions| - 1], h)
  }

  /** The database right after the versioning migration: old logs all in version 1, nothing registered. */
  ghost predicate Migrated(s: State) {
    && s.registry == {} && s.versions == []
    && forall x :: x in s.logs ==> x.version == 1
  }

  // ----- verification -----

  /** What the verifier recomputes for one log. */
  predicate Fits(h: HashFn, r: seq<Log>, i: nat)
    requires i < |r|
  {
    && r[i].index == i + 1
    && r[i].prev == (if i == 0 then ZERO_HASH else r[i - 1].current)
    && r[i].current == h(r[i].body, r[i].prev)
  }

  predicate Intact(h: HashFn, r: seq<Log>) {
    forall i :: 0 <= i < |r| ==> Fits(h, r, i)
  }

  /** The nightly verdict on a temple. */
  predicate Passes(s: State, t: Id, h: HashFn) {
    Intact(h, SortByIndex(ActiveChain(s, t)))
  }

  // ----- sorting -----

  lemma {:induction false} InsertContents(sorted: seq<Log>, x: Log)
    ensures multiset(Insert(sorted, x)) == multiset(sorted) + multiset{x}
  {
    if sorted == [] || sorted[|sorted| - 1].index <= x.index {
    } else {
      var n := |sorted| - 1;
      InsertContents(sorted[..n], x);
      assert sorted == sorted[..n] + [sorted[n]];
    }
  }

  lemma {:induction false} InsertSorts(sorted: seq<Log>, x: Log, bound: int)
    requires Sorted(sorted) && x.index <= bound
    requires forall i :: 0 <= i < |sorted| ==> sorted[i].index <= bound
    ensures Sorted(Insert(sorted, x))
    ensures forall i :: 0 <= i < |Insert(sorted, x)| ==> Insert(sorted, x)[i].index <= bound
  {
    if sorted == [] || sorted[|sorted| - 1].index <= x.index {
    } else {
      var n := |sorted| - 1;
      InsertSorts(sorted[..n], x, sorted[n].index);
    }
  }

  lemma {:induction false} SortIsOrderedResult(chain: seq<Log>)
    ensures IsOrderedResult(SortByIndex(chain), chain)
  {
    if chain != [] {
      var n := |chain| - 1;
      SortIsOrderedResult(chain[..n]);
      var front := SortByIndex(chain[..n]);
      InsertContents(front, chain[n]);
      var bound := if front == [] || front[|front| - 1].index <= chain[n].index
                   then chain[n].index else front[|front| - 1].index;
      InsertSorts(front, chain[n], bound);
      assert chain == chain[..n] + [chain[n]];
    }
  }

  lemma MultisetLength(r: seq<Log>)
    ensures |multiset(r)| == |r|
  {
  }

  lemma SameLast(r: seq<Log>, q: seq<Log>)
    requires forall i, j :: 0 <= i < j < |r| ==> r[i].index < r[j].index
    requires Sorted(q) && multiset(q) == multiset(r) && r != [] && q != []
    ensures q[|q| - 1] == r[|r| - 1]
  {
    assert q[|q| - 1] in multiset(r) && r[|r| - 1] in multiset(q);
    var i :| 0 <= i < |r| && r[i] == q[|q| - 1];
    var j :| 0 <= j < |q| && q[j] == r[|r| - 1];
  }

  lemma DropLast(r: seq<Log>)
    requires r != []
    ensures multiset(r[..|r| - 1]) == multiset(r) - multiset{r[|r| - 1]}
  {
    assert r == r[..|r| - 1] + [r[|r| - 1]];
  }

  lemma SortedFront(r: seq<Log>)
    requires Sorted(r) && r != []
    ensures Sorted(r[..|r| - 1])
  {
  }

  /** A chain without ties has one ordered result. */
  lemma {:induction false} StrictOrderIsUnique(r: seq<Log>, q: seq<Log>)
    requires forall i, j :: 0 <= i < j < |r| ==> r[i].index < r[j].index
    requires Sorted(q) && multiset(q) == multiset(r)
    ensures q == r
  {
    hide Sorted;
    MultisetLength(q);
    MultisetLength(r);
    if r != [] {
      SameLast(r, q);
      SortedFront(q);
      var r', q' := r[..|r| - 1], q[..|q| - 1];
      assert multiset(r') == multiset(q') by {
        DropLast(r);
        DropLast(q);
      }
      StrictOrderIsUnique(r', q');
      assert r == r' + [r[|r| - 1]];
      assert q == q' + [q[|q| - 1]];
    }
  }

  lemma IntactIsStrict(h: HashFn, r: seq<Log>)
    requires Intact(h, r)
    ensures forall i, j :: 0 <= i < j < |r| ==> r[i].index < r[j].index
  {
    forall i: nat | i < |r| ensures r[i].index == i + 1 {
      assert Fits(h, r, i);
    }
  }

  /** Theorem: the verdict does not depend on how the database breaks ties between equal indices. */
  lemma VerdictIgnoresTies(h: HashFn, chain: seq<Log>, r: seq<Log>)
    requires IsOrderedResult(r, chain)
    ensures Intact(h, r) <==> Intact(h, SortByIndex(chain))
  {
    SortIsOrderedResult(chain);
    var q := SortByIndex(chain);
    if Intact(h, r) {
      IntactIsStrict(h, r);
      StrictOrderIsUnique(r, q);
    } else if Intact(h, q) {
      IntactIsStrict(h, q);
      StrictOrderIsUnique(q, r);
    }
  }

  // ----- what one append does -----

  lemma SortAppend(chain: seq<Log>, x: Log)
    requires x.index == NextIndex(chain)
    ensures SortByIndex(chain + [x]) == SortByIndex(chain) + [x]
  {
    assert (chain + [x])[..|chain|] == chain;
  }

  lemma ChainAppend(logs: seq<Log>, x: Log, t: Id, v: int)
    ensures Chain(logs + [x], t, v)
         == if x.body.temple == t && x.version == v then Chain(logs, t, v) + [x] else Chain(logs, t, v)
  {
    assert (logs + [x])[..|logs|] == logs;
  }

  lemma {:induction false} ChainContents(logs: seq<Log>, t: Id, v: int, x: Log)
    ensures x in Chain(logs, t, v) <==> x in logs && x.body.temple == t && x.version == v
  {
    if logs != [] {
      ChainContents(logs[..|logs| - 1], t, v, x);
      assert logs == logs[..|logs| - 1] + [logs[|logs| - 1]];
    }
  }

  lemma IntactPrefix(h: HashFn, r: seq<Log>, x: Log)
    requires Intact(h, r + [x])
    ensures Intact(h, r)
  {
    forall i | 0 <= i < |r| ensures Fits(h, r, i) {
      assert Fits(h, r + [x], i);
    }
  }

  lemma IntactExtend(h: HashFn, r: seq<Log>, x: Log)
    requires Intact(h, r) && x.index == |r| + 1 && x.current == h(x.body, x.prev)
    requires x.prev == if r == [] then ZERO_HASH else r[|r| - 1].current
    ensures Intact(h, r + [x])
  {
    forall i | 0 <= i < |r| ensures Fits(h, r + [x], i) {
      assert Fits(h, r, i);
    }
  }

  lemma IntactLast(h: HashFn, r: seq<Log>)
    requires Intact(h, r) && r != []
    ensures r[|r| - 1].index == |r|
  {
    assert Fits(h, r, |r| - 1);
  }

  /** Theorem: the processor's next log extends an intact chain to an intact chain, and never repairs a broken one. */
  lemma NextLogKeepsVerdict(h: HashFn, chain: seq<Log>, x: Log)
    requires x.index == NextIndex(chain) && x.prev == PreviousHash(chain) && x.current == h(x.body, x.prev)
    ensures Intact(h, SortByIndex(chain + [x])) <==> Intact(h, SortByIndex(chain))
  {
    hide Intact, SortByIndex;
    SortAppend(chain, x);
    var r := SortByIndex(chain);
    if Intact(h, r + [x]) {
      IntactPrefix(h, r, x);
    }
    if Intact(h, r) {
      if r != [] {
        IntactLast(h, r);
      }
      IntactExtend(h, r, x);
    }
  }

  lemma SortLength(chain: seq<Log>)
    ensures |SortByIndex(chain)| == |chain|
  {
    hide SortByIndex;
    SortIsOrderedResult(chain);
    MultisetLength(chain);
    MultisetLength(SortByIndex(chain));
  }

  /** An intact chain of n logs is numbered 1 to n. */
  lemma IntactLength(h: HashFn, chain: seq<Log>)
    requires Intact(h, SortByIndex(chain))
    ensures NextIndex(chain) == |chain| + 1
  {
    hide Intact, SortByIndex;
    SortLength(chain);
    if chain != [] {
      IntactLast(h, SortByIndex(chain));
    }
  }

  lemma VersionsAppend(versions: seq<Version>, x: Version, t: Id)
    ensures VersionsFor(versions + [x], t)
         == if x.temple == t then VersionsFor(versions, t) + [x] else VersionsFor(versions, t)
  {
    assert (versions + [x])[..|versions|] == versions;
  }

  lemma ForkVersions(versions: seq<Version>, t: Id, parent: Hash, u: Id)
    ensures VersionsFor(versions + [SealedRow(t), ForkRow(t, parent)], u)
         == if u == t then VersionsFor(versions, u) + [SealedRow(t), ForkRow(t, parent)] else VersionsFor(versions, u)
  {
    VersionsAppend(versions, SealedRow(t), u);
    VersionsAppend(versions + [SealedRow(t)], ForkRow(t, parent), u);
    assert versions + [SealedRow(t)] + [ForkRow(t, parent)] == versions + [SealedRow(t), ForkRow(t, parent)];
  }

  // ----- the invariant of every run -----

  function V1(s: State, t: Id): seq<Log> { Chain(s.logs, t, 1) }

  function V2(s: State, t: Id): seq<Log> { Chain(s.logs, t, 2) }

  function Rows(s: State, t: Id): seq<Version> { VersionsFor(s.versions, t) }

  /** The only shape besides "no rows": version 1 sealed, version 2 active with a parent hash. */
  predicate IsFork(rows: seq<Version>, t: Id) {
    |rows| == 2 && rows[0] == SealedRow(t) && rows[1].parent.Some?
    && rows[1] == ForkRow(t, rows[1].parent.value.terminalHash)
  }

  predicate Recovered(s: State, t: Id) { Rows(s, t) != [] }

  function ParentHash(s: State, t: Id): Hash
    requires IsFork(Rows(s, t), t)
  {
    Rows(s, t)[1].parent.value.terminalHash
  }

  /** The hash of a log of the highest index. */
  predicate IsTopHash(chain: seq<Log>, hash: Hash) {
    exists x :: x in chain && x.current == hash && forall y :: y in chain ==> y.index <= x.index
  }

  ghost predicate Invariant(s0: State, s: State, t: Id, h: HashFn) {
    && s.temples == s0.temples
    && (forall x :: x in s.logs ==> x.version == 1 || x.version == 2)
    && (Recovered(s, t) ==> IsFork(Rows(s, t), t) && IsTopHash(V1(s, t), ParentHash(s, t)))
    && (Recovered(s, t) <==> V2(s, t) != [])
    && Intact(h, SortByIndex(V2(s, t)))
    && (Intact(h, SortByIndex(V1(s, t))) <==> Intact(h, SortByIndex(V1(s0, t))))
    && (V1(s0, t) == [] ==> !Recovered(s, t) && (V1(s, t) == [] || (t, 1) in s.registry))
  }

  lemma InitiallyInvariant(s0: State, t: Id, h: HashFn)
    requires Migrated(s0)
    ensures Invariant(s0, s0, t, h)
  {
    if V2(s0, t) != [] {
      ChainContents(s0.logs, t, 2, V2(s0, t)[0]);
    }
  }

  lemma ActiveIs(s: State, t: Id)
    requires Recovered(s, t) ==> IsFork(Rows(s, t), t)
    ensures ActiveVersion(s, t) == if Recovered(s, t) then 2 else 1
  {
    if Recovered(s, t) {
      var rows := Rows(s, t);
      assert rows[1..][0] == rows[1];
      assert FirstActive(rows) == FirstActive(rows[1..]);
    }
  }

  lemma LoggedKeeps(s0: State, s: State, e: Event, now: int, t: Id, h: HashFn)
    requires Invariant(s0, s, t, h) && Invariant(s0, s, e.temple, h)
    requires RegistryAccepts(s, e.temple, NewLog(s, e, now, h).index)
    ensures Invariant(s0, Logged(s, NewLog(s, e, now, h)), t, h)
  {
    hide SortByIndex, Chain, Intact, VersionsFor, FirstActive, IsFork, IsTopHash;
    var x := NewLog(s, e, now, h);
    var w := Logged(s, x);
    ActiveIs(s, e.temple);
    ChainAppend(s.logs, x, t, 1);
    ChainAppend(s.logs, x, t, 2);
    if e.temple == t {
      NextLogKeepsVerdict(h, ActiveChain(s, t), x);
      if V1(s, t) == [] && !Recovered(s, t) {
        EmptyStartsAtOne();
      }
    }
    assert Rows(w, t) == Rows(s, t);
  }

  lemma EmptyStartsAtOne()
    ensures NextIndex([]) == 1 && PreviousHash([]) == ZERO_HASH
  {
  }

  lemma ProcessEntryKeeps(s0: State, s: State, e: Event, now: int, t: Id, h: HashFn)
    requires Invariant(s0, s, t, h) && Invariant(s0, s, e.temple, h)
    ensures Invariant(s0, ProcessEntry(s, e, now, h), t, h)
  {
    hide SortByIndex, Chain, Intact, VersionsFor, NewLog;
    if Failures(s, e.id) < POISON_LIMIT && !HasId(s.logs, e.id)
       && RegistryAccepts(s, e.temple, NewLog(s, e, now, h).index) {
      LoggedKeeps(s0, s, e, now, t, h);
    }
  }

  lemma {:induction false} ProcessAllKeeps(s0: State, s: State, entries: seq<Event>, clock: Id -> int, t: Id, h: HashFn)
    requires forall u :: Invariant(s0, s, u, h)
    ensures Invariant(s0, ProcessAll(s, entries, clock, h), t, h)
  {
    hide Invariant, ProcessEntry;
    if entries != [] {
      var n := |entries| - 1;
      ProcessAllKeeps(s0, s, entries[..n], clock, t, h);
      ProcessAllKeeps(s0, s, entries[..n], clock, entries[n].temple, h);
      ProcessEntryKeeps(s0, ProcessAll(s, entries[..n], clock, h), entries[n], clock(entries[n].id), t, h);
    }
  }

  /** The database lets a fork through exactly for a temple without version rows whose index 1 is unregistered. */
  lemma CanForkIff(s0: State, s: State, t: Id, id: Id, now: int, h: HashFn)
    requires Invariant(s0, s, t, h)
    ensures CanFork(s, t, id, now)
       <==> !Recovered(s, t) && RegistryAccepts(s, t, 1) && !KeyTaken(s.logs, id, now) && t !in s.degraded
  {
    if Recovered(s, t) {
      assert Rows(s, t)[0] in Rows(s, t);
    }
  }

  lemma ForkKeeps(s0: State, s: State, u: Id, terminal: Log, id: Id, now: int, t: Id, h: HashFn)
    requires Invariant(s0, s, t, h) && Invariant(s0, s, u, h)
    requires IsTerminal(s.logs, u, terminal) && CanFork(s, u, id, now)
    ensures Invariant(s0, Forked(s, u, terminal, id, now, h), t, h)
  {
    hide SortByIndex, Chain, Intact, VersionsFor, IsTerminal, IsTopHash, CanFork, Genesis;
    var w := Forked(s, u, terminal, id, now, h);
    var g := Genesis(u, id, now, terminal.current, h);
    GenesisShape(u, id, now, terminal.current, h);
    CanForkIff(s0, s, u, id, now, h);
    ForkVersions(s.versions, u, terminal.current, t);
    ChainAppend(s.logs, g, t, 1);
    ChainAppend(s.logs, g, t, 2);
    if t == u {
      ForkedTemple(s, t, terminal, h);
      GenesisIsIntact(t, id, now, terminal.current, h);
      assert V2(w, t) == [g];
    }
  }

  lemma GenesisShape(t: Id, id: Id, now: int, parent: Hash, h: HashFn)
    ensures var g := Genesis(t, id, now, parent, h);
      g.body.temple == t && g.version == 2 && g.index == 1
  {
  }

  lemma GenesisIsIntact(t: Id, id: Id, now: int, parent: Hash, h: HashFn)
    ensures Intact(h, SortByIndex([Genesis(t, id, now, parent, h)]))
  {
    var g := Genesis(t, id, now, parent, h);
    assert [g][..0] == [] && [] + [g] == [g];
  }

  /** Before a fork all of the temple's logs are in version 1, so the terminal log is a top log of version 1. */
  lemma ForkedTemple(s: State, t: Id, terminal: Log, h: HashFn)
    requires IsTerminal(s.logs, t, terminal) && V2(s, t) == []
    requires forall x :: x in s.logs ==> x.version == 1 || x.version == 2
    ensures terminal in V1(s, t) && IsTopHash(V1(s, t), terminal.current)
  {
    ChainContents(s.logs, t, 2, terminal);
    ChainContents(s.logs, t, 1, terminal);
    forall y | y in V1(s, t) ensures y.index <= terminal.index {
      ChainContents(s.logs, t, 1, y);
    }
  }

  lemma StepKeeps(s0: State, s: State, a: Action, t: Id, h: HashFn)
    requires forall u :: Invariant(s0, s, u, h)
    ensures Invariant(s0, Step(s, a, h), t, h)
  {
    hide SortByIndex, Chain, Intact, VersionsFor, CanFork, Forked, IsTerminal, IsFork, IsTopHash;
    assert Invariant(s0, s, t, h);
    match a
    case Emit(e) =>
    case Process(clock) => ProcessAllKeeps(s0, s, Polled(s), clock, t, h);
    case Recovery(u, terminal, id, now) =>
      if u in s.temples && IsTerminal(s.logs, u, terminal) && CanFork(s, u, id, now) {
        assert Invariant(s0, s, u, h);
        ForkKeeps(s0, s, u, terminal, id, now, t, h);
      }
  }

  /** Theorem: the invariant holds after every run of emits, batches and recoveries on a migrated database. */
  lemma {:induction false} RunKeeps(s0: State, actions: seq<Action>, t: Id, h: HashFn)
    requires Migrated(s0)
    ensures Invariant(s0, Run(s0, actions, h), t, h)
  {
    hide Invariant, Step;
    if actions == [] {
      InitiallyInvariant(s0, t, h);
    } else {
      var n := |actions| - 1;
      forall u ensures Invariant(s0, Run(s0, actions[..n], h), u, h) {
        RunKeeps(s0, actions[..n], u, h);
      }
      StepKeeps(s0, Run(s0, actions[..n], h), actions[n], t, h);
    }
  }

  // ----- theorems over runs -----

  /** Theorem: after any run the nightly verification passes for a temple exactly if the temple was recovered, or
      its logs at migration time would have passed: the worker never breaks a chain and never hides a broken one. */
  lemma VerdictOverRuns(s0: State, actions: seq<Action>, t: Id, h: HashFn)
    requires Migrated(s0)
    ensures var s := Run(s0, actions, h);
      Passes(s, t, h) <==> Recovered(s, t) || Passes(s0, t, h)
  {
    RunKeeps(s0, actions, t, h);
    ActiveIs(Run(s0, actions, h), t);
    ActiveIs(s0, t);
  }

  /** Theorem: over any run a temple has no chain versions, or exactly version 1 SEALED and version 2 ACTIVE, whose
      parent hash is the hash of a last log of version 1. */
  lemma VersionsOverRuns(s0: State, actions: seq<Action>, t: Id, h: HashFn)
    requires Migrated(s0)
    ensures var s := Run(s0, actions, h);
      Rows(s, t) == [] || (IsFork(Rows(s, t), t) && IsTopHash(V1(s, t), ParentHash(s, t)))
  {
    RunKeeps(s0, actions, t, h);
  }

  /** Theorem: a temple without logs at migration time can never be recovered: its own first log registers index 1,
      which the genesis block of version 2 needs. */
  lemma FreshTempleNeverRecovers(s0: State, actions: seq<Action>, t: Id, h: HashFn)
    requires Migrated(s0)
    requires forall x :: x in s0.logs ==> x.body.temple != t
    ensures !Recovered(Run(s0, actions, h), t)
  {
    RunKeeps(s0, actions, t, h);
    if V1(s0, t) != [] {
      ChainContents(s0.logs, t, 1, V1(s0, t)[0]);
    }
  }

  /** Theorem: in any reachable state a recovery run commits exactly for a known temple with logs, not yet
      recovered, whose index 1 is unregistered, with a fresh genesis key and not in state DEGRADED; any other run
      leaves every table as it was. */
  lemma RecoveryCommitsIff(s0: State, actions: seq<Action>, t: Id, terminal: Log, id: Id, now: int, h: HashFn)
    requires Migrated(s0)
    requires var s := Run(s0, actions, h);
      (exists x :: x in s.logs && x.body.temple == t) ==> IsTerminal(s.logs, t, terminal)
    ensures var s := Run(s0, actions, h); var w := Recover(s, t, terminal, id, now, h);
      && (w == s <==> !(t in s.temples && (exists x :: x in s.logs && x.body.temple == t) && !Recovered(s, t)
                        && (t, 1) !in s.registry && t !in s.degraded
                        && !exists x :: x in s.logs && x.body.id == id && x.body.created == now))
      && (w != s ==> Recovered(w, t) && Passes(w, t, h))
  {
    hide Run, SortByIndex, Chain, Intact, VersionsFor, CanFork, IsTopHash, IsFork;
    var s := Run(s0, actions, h);
    RunKeeps(s0, actions, t, h);
    CanForkIff(s0, s, t, id, now, h);
    if t in s.temples && IsTerminal(s.logs, t, terminal) && CanFork(s, t, id, now) {
      ForkKeeps(s0, s, t, terminal, id, now, t, h);
      var w := Forked(s, t, terminal, id, now, h);
      assert |w.logs| == |s.logs| + 1;
      ForkVersions(s.versions, t, terminal.current, t);
      ActiveIs(w, t);
    }
  }

  // ----- what the registry enforces -----

  /** Logs are only ever appended; the new ones have pairwise distinct indices within their temple, across both chain
      versions, and the registry lists exactly those. */
  ghost predicate RegistryExact(s0: State, s: State) {
    && s0.logs <= s.logs
    && (forall i, j :: |s0.logs| <= i < j < |s.logs| ==> Slot(s.logs[i]) != Slot(s.logs[j]))
    && (forall i :: |s0.logs| <= i < |s.logs| ==> Slot(s.logs[i]) in s.registry)
    && (forall k :: k in s.registry ==> exists i :: |s0.logs| <= i < |s.logs| && Slot(s.logs[i]) == k)
  }

  function Slot(x: Log): (Id, int) { (x.body.temple, x.index) }

  lemma AppendKeepsRegistry(s0: State, s: State, w: State, x: Log)
    requires RegistryExact(s0, s)
    requires w.logs == s.logs + [x] && w.registry == s.registry + {Slot(x)} && Slot(x) !in s.registry
    ensures RegistryExact(s0, w)
  {
    assert Slot(w.logs[|s.logs|]) == Slot(x);
    forall k | k in w.registry ensures exists i :: |s0.logs| <= i < |w.logs| && Slot(w.logs[i]) == k {
      if k in s.registry {
        var i :| |s0.logs| <= i < |s.logs| && Slot(s.logs[i]) == k;
        assert Slot(w.logs[i]) == k;
      }
    }
  }

  lemma {:induction false} ProcessAllKeepsRegistry(s0: State, s: State, entries: seq<Event>, clock: Id -> int,
                                                   h: HashFn)
    requires RegistryExact(s0, s)
    ensures RegistryExact(s0, ProcessAll(s, entries, clock, h))
  {
    hide RegistryExact, NewLog;
    if entries != [] {
      var n := |entries| - 1;
      ProcessAllKeepsRegistry(s0, s, entries[..n], clock, h);
      ProcessEntryKeepsRegistry(s0, ProcessAll(s, entries[..n], clock, h), entries[n], clock(entries[n].id), h);
    }
  }

  lemma ProcessEntryKeepsRegistry(s0: State, s: State, e: Event, now: int, h: HashFn)
    requires RegistryExact(s0, s)
    ensures RegistryExact(s0, ProcessEntry(s, e, now, h))
  {
    hide SortByIndex, Chain, VersionsFor;
    var x := NewLog(s, e, now, h);
    if Failures(s, e.id) < POISON_LIMIT && !HasId(s.logs, e.id) && RegistryAccepts(s, e.temple, x.index) {
      AppendKeepsRegistry(s0, s, Logged(s, x), x);
    }
  }

  /** Theorem: over every run the new logs of a temple have distinct indices, and the registry lists exactly them. */
  lemma {:induction false} RegistryOverRuns(s0: State, actions: seq<Action>, h: HashFn)
    requires Migrated(s0)
    ensures RegistryExact(s0, Run(s0, actions, h))
  {
    hide RegistryExact, ProcessAll, CanFork, IsTerminal;
    if actions == [] {
      assert RegistryExact(s0, s0) by { RegistryStartsExact(s0); }
    } else {
      var n := |actions| - 1;
      RegistryOverRuns(s0, actions[..n], h);
      var s := Run(s0, actions[..n], h);
      match actions[n]
      case Emit(e) => SameLogsKeepRegistry(s0, s, Enqueue(s, e));
      case Process(clock) => ProcessAllKeepsRegistry(s0, s, Polled(s), clock, h);
      case Recovery(u, terminal, id, now) =>
        if u in s.temples && IsTerminal(s.logs, u, terminal) && CanFork(s, u, id, now) {
          ForkAccepted(s, u, id, now);
          AppendKeepsRegistry(s0, s, Forked(s, u, terminal, id, now, h), Genesis(u, id, now, terminal.current, h));
        }
    }
  }

  lemma ForkAccepted(s: State, t: Id, id: Id, now: int)
    requires CanFork(s, t, id, now)
    ensures (t, 1) !in s.registry
  {
  }

  lemma RegistryStartsExact(s0: State)
    requires Migrated(s0)
    ensures RegistryExact(s0, s0)
  {
  }

  lemma SameLogsKeepRegistry(s0: State, s: State, w: State)
    requires RegistryExact(s0, s) && w.logs == s.logs && w.registry == s.registry
    ensures RegistryExact(s0, w)
  {
  }

  // ----- what a fork freezes -----

  lemma {:induction false} RunConcat(s: State, first: seq<Action>, second: seq<Action>, h: HashFn)
    ensures Run(s, first + second, h) == Run(Run(s, first, h), second, h)
  {
    if second == [] {
      assert first + second == first;
    } else {
      var n := |second| - 1;
      RunConcat(s, first, second[..n], h);
      assert (first + second)[..|first + second| - 1] == first + second[..n];
    }
  }

  /** What holds of a recovered temple: its sealed chain, its versions and its registered indices only ever stay, and
      its active chain stays below every registered index it has not reached. */
  ghost predicate Bounded(s0: State, b: State, s: State, t: Id, limit: int, h: HashFn) {
    && Invariant(s0, s, t, h) && Recovered(s, t)
    && V1(s, t) == V1(b, t)
    && Rows(s, t) == Rows(b, t)
    && (t, limit) in s.registry
    && |V2(s, t)| < limit
  }

  lemma LoggedStaysBounded(s0: State, b: State, s: State, e: Event, now: int, t: Id, limit: int, h: HashFn)
    requires Bounded(s0, b, s, t, limit, h) && Invariant(s0, s, e.temple, h)
    requires RegistryAccepts(s, e.temple, NewLog(s, e, now, h).index)
    ensures Bounded(s0, b, Logged(s, NewLog(s, e, now, h)), t, limit, h)
  {
    hide SortByIndex, Chain, Intact, VersionsFor, FirstActive, IsFork, IsTopHash;
    var x := NewLog(s, e, now, h);
    LoggedKeeps(s0, s, e, now, t, h);
    ActiveIs(s, e.temple);
    ChainAppend(s.logs, x, t, 1);
    ChainAppend(s.logs, x, t, 2);
    if e.temple == t {
      IntactLength(h, V2(s, t));
      assert x.index == |V2(s, t)| + 1 && x.index != limit;
    }
  }

  lemma ProcessEntryStaysBounded(s0: State, b: State, s: State, e: Event, now: int, t: Id, limit: int, h: HashFn)
    requires Bounded(s0, b, s, t, limit, h) && Invariant(s0, s, e.temple, h)
    ensures Bounded(s0, b, ProcessEntry(s, e, now, h), t, limit, h)
  {
    hide SortByIndex, Chain, Intact, VersionsFor, NewLog, IsTopHash, IsFork;
    ProcessEntryKeeps(s0, s, e, now, t, h);
    if Failures(s, e.id) < POISON_LIMIT && !HasId(s.logs, e.id)
       && RegistryAccepts(s, e.temple, NewLog(s, e, now, h).index) {
      LoggedStaysBounded(s0, b, s, e, now, t, limit, h);
    }
  }

  lemma {:induction false} ProcessAllStaysBounded(s0: State, b: State, s: State, entries: seq<Event>, clock: Id -> int,
                                                  t: Id, limit: int, h: HashFn)
    requires Bounded(s0, b, s, t, limit, h) && forall u :: Invariant(s0, s, u, h)
    ensures Bounded(s0, b, ProcessAll(s, entries, clock, h), t, limit, h)
  {
    hide Invariant, ProcessEntry, Bounded;
    if entries != [] {
      var n := |entries| - 1;
      ProcessAllStaysBounded(s0, b, s, entries[..n], clock, t, limit, h);
      ProcessAllKeeps(s0, s, entries[..n], clock, entries[n].temple, h);
      ProcessEntryStaysBounded(s0, b, ProcessAll(s, entries[..n], clock, h), entries[n], clock(entries[n].id), t,
          limit, h);
    }
  }

  lemma StepStaysBounded(s0: State, b: State, s: State, a: Action, t: Id, limit: int, h: HashFn)
    requires Bounded(s0, b, s, t, limit, h) && forall u :: Invariant(s0, s, u, h)
    ensures Bounded(s0, b, Step(s, a, h), t, limit, h)
  {
    hide SortByIndex, Chain, Intact, VersionsFor, CanFork, IsTerminal, IsFork, IsTopHash, Genesis;
    StepKeeps(s0, s, a, t, h);
    match a
    case Emit(e) =>
    case Process(clock) => ProcessAllStaysBounded(s0, b, s, Polled(s), clock, t, limit, h);
    case Recovery(u, terminal, id, now) =>
      if u in s.temples && IsTerminal(s.logs, u, terminal) && CanFork(s, u, id, now) {
        var g := Genesis(u, id, now, terminal.current, h);
        GenesisShape(u, id, now, terminal.current, h);
        CanForkIff(s0, s, u, id, now, h);
        ForkVersions(s.versions, u, terminal.current, t);
        ChainAppend(s.logs, g, t, 1);
        ChainAppend(s.logs, g, t, 2);
      }
  }

  lemma {:induction false} RunStaysBounded(s0: State, before: seq<Action>, after: seq<Action>, t: Id, limit: int,
                                           h: HashFn)
    requires Migrated(s0)
    requires var b := Run(s0, before, h); Bounded(s0, b, b, t, limit, h)
    ensures var b := Run(s0, before, h); Bounded(s0, b, Run(b, after, h), t, limit, h)
  {
    hide Invariant, Step, Bounded, Migrated;
    var b := Run(s0, before, h);
    if after != [] {
      var n := |after| - 1;
      RunStaysBounded(s0, before, after[..n], t, limit, h);
      RunConcat(s0, before, after[..n], h);
      forall u ensures Invariant(s0, Run(b, after[..n], h), u, h) {
        RunKeeps(s0, before + after[..n], u, h);
      }
      StepStaysBounded(s0, b, Run(b, after[..n], h), after[n], t, limit, h);
    }
  }

  /** Theorem: the registry key has no chain version, so a recovered temple whose version 1 ever registered an index
      r can never hold r logs in version 2, whatever happens afterwards; and its sealed chain and version rows never
      change. */
  lemma ForkIsCapped(s0: State, before: seq<Action>, after: seq<Action>, t: Id, terminal: Log, id: Id, now: int,
                     r: int, h: HashFn)
    requires Migrated(s0) && r >= 1
    requires (t, r) in Run(s0, before, h).registry && !Recovered(Run(s0, before, h), t)
    requires Recovered(Run(s0, before + [Recovery(t, terminal, id, now)], h), t)
    ensures var b := Run(s0, before + [Recovery(t, terminal, id, now)], h); var s := Run(b, after, h);
      && |V2(s, t)| < r
      && V1(s, t) == V1(b, t) && Rows(s, t) == Rows(b, t)
      && Passes(s, t, h)
  {
    hide Invariant, Intact, SortByIndex, Migrated;
    var fork := before + [Recovery(t, terminal, id, now)];
    var b := Run(s0, fork, h);
    ForkStartsBounded(s0, before, t, terminal, id, now, r, h);
    RunStaysBounded(s0, fork, after, t, r, h);
    RunConcat(s0, fork, after, h);
    VerdictOverRuns(s0, fork + after, t, h);
    BoundedMeans(s0, b, Run(b, after, h), t, r, h);
  }

  lemma BoundedMeans(s0: State, b: State, s: State, t: Id, limit: int, h: HashFn)
    requires Bounded(s0, b, s, t, limit, h)
    ensures Recovered(s, t) && |V2(s, t)| < limit && V1(s, t) == V1(b, t) && Rows(s, t) == Rows(b, t)
  {
  }

  lemma ForkStartsBounded(s0: State, before: seq<Action>, t: Id, terminal: Log, id: Id, now: int, r: int, h: HashFn)
    requires Migrated(s0) && r >= 1
    requires (t, r) in Run(s0, before, h).registry && !Recovered(Run(s0, before, h), t)
    requires Recovered(Run(s0, before + [Recovery(t, terminal, id, now)], h), t)
    ensures var b := Run(s0, before + [Recovery(t, terminal, id, now)], h); Bounded(s0, b, b, t, r, h)
  {
    hide SortByIndex, Intact, IsTerminal, IsFork, IsTopHash, Genesis, Chain, VersionsFor;
    var fork := before + [Recovery(t, terminal, id, now)];
    assert fork[..|before|] == before;
    var s, b := Run(s0, before, h), Run(s0, fork, h);
    RunKeeps(s0, before, t, h);
    RunKeeps(s0, fork, t, h);
    assert b == Recover(s, t, terminal, id, now, h);
    var g := Genesis(t, id, now, terminal.current, h);
    GenesisShape(t, id, now, terminal.current, h);
    ChainAppend(s.logs, g, t, 2);
    assert V2(b, t) == [g];
  }

  /** The temple's next index is taken. */
  ghost predicate Stuck(s: State, t: Id) {
    Recovered(s, t) && (t, NextIndex(V2(s, t))) in s.registry
  }

  /** Theorem: once the next index of a recovered temple is taken it stays taken: no run ever adds a log for the
      temple. */
  lemma StuckForever(s0: State, before: seq<Action>, after: seq<Action>, t: Id, h: HashFn)
    requires Migrated(s0) && Stuck(Run(s0, before, h), t)
    ensures var b := Run(s0, before, h); var s := Run(b, after, h);
      Stuck(s, t) && V1(s, t) == V1(b, t) && V2(s, t) == V2(b, t)
  {
    hide Intact, SortByIndex, Chain, Step, IsFork, IsTopHash, VersionsFor, NextIndex;
    var b := Run(s0, before, h);
    if after == [] {
    } else {
      var n := |after| - 1;
      StuckForever(s0, before, after[..n], t, h);
      RunConcat(s0, before, after[..n], h);
      forall u ensures Invariant(s0, Run(b, after[..n], h), u, h) {
        RunKeeps(s0, before + after[..n], u, h);
      }
      StepStaysStuck(s0, Run(b, after[..n], h), after[n], t, h);
    }
  }

  lemma StepStaysStuck(s0: State, s: State, a: Action, t: Id, h: HashFn)
    requires Stuck(s, t) && forall u :: Invariant(s0, s, u, h)
    ensures var w := Step(s, a, h); Stuck(w, t) && V1(w, t) == V1(s, t) && V2(w, t) == V2(s, t)
  {
    hide SortByIndex, Chain, Intact, VersionsFor, CanFork, IsTerminal, IsFork, IsTopHash, Genesis, NextIndex;
    assert Invariant(s0, s, t, h);
    match a
    case Emit(e) =>
    case Process(clock) => ProcessAllStaysStuck(s0, s, Polled(s), clock, t, h);
    case Recovery(u, terminal, id, now) =>
      if u in s.temples && IsTerminal(s.logs, u, terminal) && CanFork(s, u, id, now) {
        var g := Genesis(u, id, now, terminal.current, h);
        GenesisShape(u, id, now, terminal.current, h);
        CanForkIff(s0, s, u, id, now, h);
        ForkVersions(s.versions, u, terminal.current, t);
        ChainAppend(s.logs, g, t, 1);
        ChainAppend(s.logs, g, t, 2);
      }
  }

  lemma {:induction false} ProcessAllStaysStuck(s0: State, s: State, entries: seq<Event>, clock: Id -> int, t: Id,
                                                h: HashFn)
    requires Stuck(s, t) && forall u :: Invariant(s0, s, u, h)
    ensures var w := ProcessAll(s, entries, clock, h); Stuck(w, t) && V1(w, t) == V1(s, t) && V2(w, t) == V2(s, t)
  {
    hide Invariant, ProcessEntry, Chain, VersionsFor, NextIndex;
    if entries != [] {
      var n := |entries| - 1;
      ProcessAllStaysStuck(s0, s, entries[..n], clock, t, h);
      ProcessAllKeeps(s0, s, entries[..n], clock, entries[n].temple, h);
      ProcessAllKeeps(s0, s, entries[..n], clock, t, h);
      ProcessEntryStaysStuck(s0, ProcessAll(s, entries[..n], clock, h), entries[n], clock(entries[n].id), t, h);
    }
  }

  /** In a stuck temple an event is never logged: it fails, and after three failures it is deleted. */
  lemma ProcessEntryStaysStuck(s0: State, s: State, e: Event, now: int, t: Id, h: HashFn)
    requires Stuck(s, t) && Invariant(s0, s, t, h) && Invariant(s0, s, e.temple, h)
    ensures var w := ProcessEntry(s, e, now, h);
      && Stuck(w, t) && V1(w, t) == V1(s, t) && V2(w, t) == V2(s, t)
      && (e.temple == t ==> w.logs == s.logs)
      && (e.temple == t && !HasId(s.logs, e.id) ==>
            if Failures(s, e.id) < POISON_LIMIT then w.outbox == s.outbox && Failures(w, e.id) == Failures(s, e.id) + 1
            else !Pending(w, e.id))
  {
    hide SortByIndex, Chain, Intact, VersionsFor, IsTopHash, IsFork, FirstActive, NextIndex, PreviousHash;
    ActiveIs(s, e.temple);
    ActiveIs(s, t);
    var x := NewLog(s, e, now, h);
    ChainAppend(s.logs, x, t, 1);
    ChainAppend(s.logs, x, t, 2);
    AcknowledgeRemoves(s.outbox, e.id);
  }

  lemma {:induction false} AcknowledgeRemoves(outbox: seq<Event>, id: Id)
    ensures forall e :: e in Acknowledge(outbox, id) <==> e in outbox && e.id != id
  {
    if outbox != [] {
      var n := |outbox| - 1;
      AcknowledgeRemoves(outbox[..n], id);
      assert outbox == outbox[..n] + [outbox[n]];
    }
  }

  // ----- what a terminal hash commits to -----

  /** The idealised hash: no two inputs collide, and none hashes to the genesis value. */
  ghost predicate CollisionFree(h: HashFn) {
    && (forall b, p, b', p' :: h(b, p) == h(b', p') ==> b == b' && p == p')
    && (forall b, p :: h(b, p) != ZERO_HASH)
  }

  /** Equal in everything the verifier looks at. */
  predicate SameSealed(x: Log, y: Log) {
    x.body == y.body && x.prev == y.prev && x.current == y.current && x.index == y.index
  }

  /** Theorem: under an ideal hash the last hash of an intact chain determines the length of the chain and every hashed
      column of every log: two intact chains with the same terminal hash are the same history. */
  lemma {:induction false} TerminalHashCommits(h: HashFn, r: seq<Log>, q: seq<Log>)
    requires CollisionFree(h) && Intact(h, r) && Intact(h, q) && r != [] && q != []
    requires r[|r| - 1].current == q[|q| - 1].current
    ensures |r| == |q| && forall i :: 0 <= i < |r| ==> SameSealed(r[i], q[i])
  {
    var m, n := |r| - 1, |q| - 1;
    assert Fits(h, r, m) && Fits(h, q, n);
    assert r[m].body == q[n].body && r[m].prev == q[n].prev;
    if m > 0 {
      assert Fits(h, r, m - 1);
    }
    if n > 0 {
      assert Fits(h, q, n - 1);
    }
    if m > 0 && n > 0 {
      IntactFront(h, r);
      IntactFront(h, q);
      TerminalHashCommits(h, r[..m], q[..n]);
      assert forall i :: 0 <= i < m ==> r[i] == r[..m][i] && q[i] == q[..n][i];
    }
  }

  lemma IntactFront(h: HashFn, r: seq<Log>)
    requires Intact(h, r) && r != []
    ensures Intact(h, r[..|r| - 1])
  {
    assert r[..|r| - 1] + [r[|r| - 1]] == r;
    IntactPrefix(h, r[..|r| - 1], r[|r| - 1]);
  }

  /** Theorem: and it commits to nothing else: rewriting a column outside the hash never changes a verdict. */
  lemma UnhashedColumnsAreFree(h: HashFn, r: seq<Log>, i: nat, context: string)
    requires i < |r|
    ensures Intact(h, r[i := r[i].(context := context)]) <==> Intact(h, r)
  {
    var w := r[i := r[i].(context := context)];
    forall j: nat | j < |r| ensures Fits(h, w, j) <==> Fits(h, r, j) {
    }
  }
}
