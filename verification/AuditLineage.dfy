/** What a recovery leaves behind, over whole runs: the rows of the fork, and a genesis block that ties version 2 to
    version 1. */
module AuditLineage {
  import opened Common
  import opened AuditChain

  function IncidentsFor(incidents: seq<Incident>, t: Id): seq<Incident> {
    if incidents == [] then []
    else
      var x := incidents[|incidents| - 1];
      var front := IncidentsFor(incidents[..|incidents| - 1], t);
      if x.temple == t then front + [x] else front
  }

  /** The incidents reported since the migration. */
  function NewIncidents(s0: State, s: State, t: Id): seq<Incident>
    requires |s0.incidents| <= |s.incidents|
  {
    IncidentsFor(s.incidents[|s0.incidents|..], t)
  }

  /** The first log inserted into version 2 is the genesis block for the given parent hash. */
  predicate StartsFrom(chain: seq<Log>, parent: Hash) {
    && chain != [] && chain[0].index == 1 && chain[0].prev == ZERO_HASH
    && chain[0].body.action == "INITIALIZE"
    && chain[0].body.after == "{\"parent_chain_version\": 1, \"parent_terminal_hash\": \"" + parent + "\"}"
  }

  ghost predicate Lineage(s0: State, s: State, t: Id) {
    && s0.incidents <= s.incidents
    && if Recovered(s, t) then
         && IsFork(Rows(s, t), t)
         && NewIncidents(s0, s, t) == [Incident(t, 1, ParentHash(s, t))]
         && StartsFrom(V2(s, t), ParentHash(s, t))
       else NewIncidents(s0, s, t) == []
  }

  // ----- every step keeps the lineage -----

  /** Logging appends to chains and leaves versions and incidents alone. */
  lemma ProcessEntryKeepsLineage(s0: State, s: State, e: Event, now: int, t: Id, h: HashFn)
    requires Lineage(s0, s, t)
    ensures Lineage(s0, ProcessEntry(s, e, now, h), t)
  {
    hide Chain, VersionsFor, NewLog, IncidentsFor, IsFork, GenesisPayload;
    ChainAppend(s.logs, NewLog(s, e, now, h), t, 2);
  }

  lemma {:induction false} ProcessAllKeepsLineage(s0: State, s: State, entries: seq<Event>, clock: Id -> int, t: Id,
                                                  h: HashFn)
    requires Lineage(s0, s, t)
    ensures Lineage(s0, ProcessAll(s, entries, clock, h), t)
  {
    hide Lineage, ProcessEntry;
    if entries != [] {
      var n := |entries| - 1;
      ProcessAllKeepsLineage(s0, s, entries[..n], clock, t, h);
      ProcessEntryKeepsLineage(s0, ProcessAll(s, entries[..n], clock, h), entries[n], clock(entries[n].id), t, h);
    }
  }

  lemma IncidentsAppend(before: seq<Incident>, s: seq<Incident>, x: Incident, t: Id)
    requires before <= s
    ensures before <= s + [x]
    ensures IncidentsFor((s + [x])[|before|..], t)
         == IncidentsFor(s[|before|..], t) + if x.temple == t then [x] else []
  {
    var more := s[|before|..];
    assert (s + [x])[|before|..] == more + [x];
    assert (more + [x])[..|more|] == more;
  }

  lemma ForkKeepsLineage(s0: State, s: State, u: Id, terminal: Log, id: Id, now: int, t: Id, h: HashFn)
    requires Lineage(s0, s, t) && Invariant(s0, s, t, h) && Invariant(s0, s, u, h)
    requires CanFork(s, u, id, now)
    ensures Lineage(s0, Forked(s, u, terminal, id, now, h), t)
  {
    hide SortByIndex, Chain, Intact, VersionsFor, IsTopHash, CanFork, IncidentsFor;
    var w := Forked(s, u, terminal, id, now, h);
    CanForkIff(s0, s, u, id, now, h);
    ForkVersions(s.versions, u, terminal.current, t);
    ChainAppend(s.logs, Genesis(u, id, now, terminal.current, h), t, 2);
    IncidentsAppend(s0.incidents, s.incidents, Incident(u, 1, terminal.current), t);
    assert w.incidents == s.incidents + [Incident(u, 1, terminal.current)];
  }

  lemma {:induction false} LineageOverRuns(s0: State, actions: seq<Action>, t: Id, h: HashFn)
    requires Migrated(s0)
    ensures Lineage(s0, Run(s0, actions, h), t)
  {
    hide Lineage, Invariant, ProcessAll, CanFork, IsTerminal, Forked;
    if actions == [] {
      StartsWithoutLineage(s0, t);
    } else {
      var n := |actions| - 1;
      LineageOverRuns(s0, actions[..n], t, h);
      var s := Run(s0, actions[..n], h);
      match actions[n]
      case Emit(e) => EmitKeepsLineage(s0, s, e, t);
      case Process(clock) => ProcessAllKeepsLineage(s0, s, Polled(s), clock, t, h);
      case Recovery(u, terminal, id, now) =>
        if u in s.temples && IsTerminal(s.logs, u, terminal) && CanFork(s, u, id, now) {
          RunKeeps(s0, actions[..n], t, h);
          RunKeeps(s0, actions[..n], u, h);
          ForkKeepsLineage(s0, s, u, terminal, id, now, t, h);
        }
    }
  }

  lemma StartsWithoutLineage(s0: State, t: Id)
    requires Migrated(s0)
    ensures Lineage(s0, s0, t)
  {
  }

  lemma EmitKeepsLineage(s0: State, s: State, e: Event, t: Id)
    requires Lineage(s0, s, t)
    ensures Lineage(s0, Enqueue(s, e), t)
  {
  }

  /** Theorem: over any run a temple either has no version rows and no new incident, or, for one hash of a last
      version 1 log, exactly these rows: version 1 sealed, version 2 active with that hash as parent, one incident
      naming it, and a genesis block naming it at the head of version 2. */
  lemma RecoveryLeaves(s0: State, actions: seq<Action>, t: Id, h: HashFn)
    requires Migrated(s0)
    ensures var s := Run(s0, actions, h);
      && s0.incidents <= s.incidents
      && if V2(s, t) == [] then Rows(s, t) == [] && NewIncidents(s0, s, t) == []
         else exists hash ::
                && IsTopHash(V1(s, t), hash)
                && Rows(s, t) == [Version(t, 1, SEALED, None), Version(t, 2, ACTIVE, Some(Parent(1, hash)))]
                && NewIncidents(s0, s, t) == [Incident(t, 1, hash)]
                && StartsFrom(V2(s, t), hash)
  {
    hide Run, Chain, VersionsFor, IncidentsFor, Intact, SortByIndex, StartsFrom;
    RunKeeps(s0, actions, t, h);
    LineageOverRuns(s0, actions, t, h);
    var s := Run(s0, actions, h);
    if Recovered(s, t) {
      assert IsTopHash(V1(s, t), ParentHash(s, t));
    }
  }

  // ----- what the terminal hash of version 2 commits to -----

  /** In an intact chain the log numbered 1 is the first, and a top log is the last. */
  lemma IntactEnds(h: HashFn, chain: seq<Log>, x: Log)
    requires Intact(h, SortByIndex(chain)) && x in chain
    ensures |SortByIndex(chain)| == |chain| > 0
    ensures x.index == 1 ==> x == SortByIndex(chain)[0]
    ensures (forall y :: y in chain ==> y.index <= x.index) ==> x == SortByIndex(chain)[|chain| - 1]
  {
    hide SortByIndex;
    var r := SortByIndex(chain);
    SortIsOrderedResult(chain);
    SortLength(chain);
    assert x in multiset(chain);
    var i :| 0 <= i < |r| && r[i] == x;
    assert Fits(h, r, i);
    var last := r[|r| - 1];
    assert Fits(h, r, |r| - 1);
    assert last in multiset(r);
  }

  lemma PayloadDetermines(a: Hash, b: Hash)
    requires GenesisPayload(a) == GenesisPayload(b)
    ensures a == b
  {
    var head, tail := "{\"parent_chain_version\": 1, \"parent_terminal_hash\": \"", "\"}";
    assert |head + a + tail| == |head + b + tail|;
    assert a == (head + a + tail)[|head|..|head| + |a|];
    assert b == (head + b + tail)[|head|..|head| + |b|];
  }

  /** Two intact chains with the same hash in their top logs are the same history. */
  lemma TopHashCommits(h: HashFn, a: seq<Log>, b: seq<Log>, hash: Hash)
    requires CollisionFree(h) && Intact(h, SortByIndex(a)) && Intact(h, SortByIndex(b))
    requires IsTopHash(a, hash) && IsTopHash(b, hash)
    ensures SameHistory(SortByIndex(a), SortByIndex(b))
  {
    hide SortByIndex, Intact, CollisionFree;
    var x :| x in a && x.current == hash && forall y :: y in a ==> y.index <= x.index;
    var z :| z in b && z.current == hash && forall y :: y in b ==> y.index <= z.index;
    IntactEnds(h, a, x);
    IntactEnds(h, b, z);
    TerminalHashCommits(h, SortByIndex(a), SortByIndex(b));
  }

  predicate SameHistory(r: seq<Log>, q: seq<Log>) {
    |r| == |q| && forall i :: 0 <= i < |r| ==> SameSealed(r[i], q[i])
  }

  /** Theorem: under an ideal hash the terminal hash of version 2 commits across the fork: whatever two runs led to
      it, they agree on version 2, on the parent hash, and, where version 1 is intact, on all of version 1. */
  lemma ForkCommits(s0: State, q0: State, run: seq<Action>, other: seq<Action>, t: Id, hash: Hash, h: HashFn)
    requires CollisionFree(h) && Migrated(s0) && Migrated(q0)
    requires Recovered(Run(s0, run, h), t) && Recovered(Run(q0, other, h), t)
    requires IsTopHash(V2(Run(s0, run, h), t), hash) && IsTopHash(V2(Run(q0, other, h), t), hash)
    ensures var s, q := Run(s0, run, h), Run(q0, other, h);
      && SameHistory(SortByIndex(V2(s, t)), SortByIndex(V2(q, t)))
      && Rows(s, t) == Rows(q, t)
      && (Intact(h, SortByIndex(V1(s, t))) && Intact(h, SortByIndex(V1(q, t)))
          ==> SameHistory(SortByIndex(V1(s, t)), SortByIndex(V1(q, t))))
  {
    hide Run, Chain, VersionsFor, IncidentsFor, Intact, SortByIndex, CollisionFree, IsTopHash, GenesisPayload,
      SameHistory;
    var s, q := Run(s0, run, h), Run(q0, other, h);
    RunKeeps(s0, run, t, h);
    RunKeeps(q0, other, t, h);
    LineageOverRuns(s0, run, t, h);
    LineageOverRuns(q0, other, t, h);
    TopHashCommits(h, V2(s, t), V2(q, t), hash);
    SameGenesis(h, V2(s, t), V2(q, t), ParentHash(s, t), ParentHash(q, t));
    if Intact(h, SortByIndex(V1(s, t))) && Intact(h, SortByIndex(V1(q, t))) {
      TopHashCommits(h, V1(s, t), V1(q, t), ParentHash(s, t));
    }
  }

  lemma SameGenesis(h: HashFn, a: seq<Log>, b: seq<Log>, p: Hash, p': Hash)
    requires Intact(h, SortByIndex(a)) && Intact(h, SortByIndex(b))
    requires SameHistory(SortByIndex(a), SortByIndex(b)) && StartsFrom(a, p) && StartsFrom(b, p')
    ensures p == p'
  {
    hide SortByIndex, Intact;
    IntactEnds(h, a, a[0]);
    IntactEnds(h, b, b[0]);
    assert SameSealed(SortByIndex(a)[0], SortByIndex(b)[0]);
    PayloadDetermines(p, p');
  }
}
