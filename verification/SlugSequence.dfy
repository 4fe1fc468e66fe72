/** The order of the slug repairs: missing slugs by position, then invalid ones by position, then the later holders
    of shared slugs, slug by slug in the order of first appearance. Among temples that are rebuilt from the same
    base the order decides who gets the lower number. */
module SlugSequence {
  import opened Slugs
  import opened SlugRepair

  /** Among the first n domains, one slug appears before any appearance of the other. */
  ghost predicate AppearsBefore(ds: seq<string>, n: nat, first: string, second: string)
    requires n <= |ds|
  {
    exists a :: 0 <= a < n && ds[a] == first && forall b :: 0 <= b <= a ==> ds[b] != second
  }

  /** Temple i is repaired before temple j. */
  ghost predicate Precedes(ds: seq<string>, i: nat, j: nat)
    requires i < |ds| && j < |ds|
  {
    if !IsValid(ds[i]) then
      || IsValid(ds[j])
      || (IsMissing(ds[i]) && !IsMissing(ds[j]))
      || ((IsMissing(ds[i]) <==> IsMissing(ds[j])) && i < j)
    else
      IsValid(ds[j]) && (AppearsBefore(ds, |ds|, ds[i], ds[j]) || (ds[i] == ds[j] && i < j))
  }

  lemma {:induction false} SlugOrderAppears(ds: seq<string>, n: nat, a: nat, b: nat)
    requires n <= |ds| && a < b < |SlugOrder(ds, n)|
    ensures AppearsBefore(ds, n, SlugOrder(ds, n)[a], SlugOrder(ds, n)[b])
  {
    var front := SlugOrder(ds, n - 1);
    if b < |front| {
      SlugOrderAppears(ds, n - 1, a, b);
    } else {
      SlugOrderContents(ds, n - 1);
      assert front[a] in front;
      var x :| 0 <= x < n - 1 && ds[x] == front[a] && IsValid(front[a]);
      assert ds[x] == SlugOrder(ds, n)[a];
    }
  }

  /** Slugs that follow one another by first appearance. */
  ghost predicate InOrder(ds: seq<string>, slugs: seq<string>) {
    forall a, b :: 0 <= a < b < |slugs| ==> AppearsBefore(ds, |ds|, slugs[a], slugs[b])
  }

  lemma {:induction false} DuplicatesInOrder(ds: seq<string>, slugs: seq<string>, n: nat, m: nat)
    requires InOrder(ds, slugs) && n < m < |DuplicateJobs(ds, slugs)|
    requires forall a, b :: 0 <= a < b < |slugs| ==> slugs[a] != slugs[b]
    ensures var jobs := DuplicateJobs(ds, slugs); var i, j := jobs[n].index, jobs[m].index;
      i < |ds| && j < |ds| && (AppearsBefore(ds, |ds|, ds[i], ds[j]) || (ds[i] == ds[j] && i < j))
  {
    hide AppearsBefore;
    var k := |slugs| - 1;
    var front, last := slugs[..k], slugs[k];
    var before, own := DuplicateJobs(ds, front), SlugJobs(Holders(ds, |ds|, last), last);
    DuplicateJobsContents(ds, slugs);
    DuplicateJobsContents(ds, front);
    SlugJobsContents(ds, last);
    if m < |before| {
      DuplicatesInOrder(ds, front, n, m);
    } else if n < |before| {
      var a :| 0 <= a < k && slugs[a] == before[n].base;
      assert AppearsBefore(ds, |ds|, slugs[a], slugs[k]);
    } else {
      HoldersContents(ds, last);
    }
  }

  /** The format pass takes the missing slugs first. */
  lemma FormatInOrder(ds: seq<string>, n: nat, m: nat)
    requires n < m < |RepairOrder(ds)|
    ensures var o := RepairOrder(ds);
      o[n] < |ds| && o[m] < |ds| && !IsValid(ds[o[n]]) && !IsValid(ds[o[m]]) && Precedes(ds, o[n], o[m])
  {
    hide IsMissing, Accepted;
    var missing, invalid := Missing(ds, |ds|), Invalid(ds, |ds|);
    PositionsContents(ds, |ds|, s => IsMissing(s));
    PositionsContents(ds, |ds|, s => IsInvalid(s));
    assert RepairOrder(ds)[n] in RepairOrder(ds) && RepairOrder(ds)[m] in RepairOrder(ds);
    if n < |missing| {
      assert missing[n] in missing;
    } else {
      assert invalid[n - |missing|] in invalid;
    }
    if m < |missing| {
      assert missing[m] in missing;
    } else {
      assert invalid[m - |missing|] in invalid;
    }
  }

  /** The duplicates are those of valid slugs. */
  lemma DuplicatesAreValid(ds: seq<string>, n: nat)
    requires n < |DuplicateJobs(ds, SlugOrder(ds, |ds|))|
    ensures var i := DuplicateJobs(ds, SlugOrder(ds, |ds|))[n].index; i < |ds| && IsValid(ds[i])
  {
    SlugOrderContents(ds, |ds|);
    DuplicateJobsContents(ds, SlugOrder(ds, |ds|));
  }

  /** Theorem: the repairs happen in the stated order. */
  lemma JobsAreInOrder(ts: seq<Temple>, n: nat, m: nat)
    requires n < m < |Jobs(ts)|
    ensures var ds := DomainsOf(ts); var jobs := Jobs(ts);
      jobs[n].index < |ds| && jobs[m].index < |ds| && Precedes(ds, jobs[n].index, jobs[m].index)
  {
    hide AppearsBefore, SlugOrder, IsValid, DuplicateJobs, RepairOrder;
    var ds := DomainsOf(ts);
    var slugs := SlugOrder(ds, |ds|);
    var format, rest := FormatJobs(ts, RepairOrder(ds)), DuplicateJobs(ds, slugs);
    assert Jobs(ts) == format + rest;
    if m < |format| {
      FormatInOrder(ds, n, m);
    } else if n < |format| {
      FormatEntry(ds, n);
      DuplicatesAreValid(ds, m - |format|);
    } else {
      forall a, b | 0 <= a < b < |slugs| ensures AppearsBefore(ds, |ds|, slugs[a], slugs[b]) {
        SlugOrderAppears(ds, |ds|, a, b);
      }
      SlugOrderContents(ds, |ds|);
      DuplicatesAreValid(ds, n - |format|);
      DuplicatesAreValid(ds, m - |format|);
      DuplicatesInOrder(ds, slugs, n - |format|, m - |format|);
    }
  }

  lemma FormatEntry(ds: seq<string>, n: nat)
    requires n < |RepairOrder(ds)|
    ensures RepairOrder(ds)[n] < |ds| && !IsValid(ds[RepairOrder(ds)[n]])
  {
    RepairOrderContents(ds);
    assert RepairOrder(ds)[n] in RepairOrder(ds);
  }

  // ----- who gets the lower number -----

  lemma {:induction false} KeysGrow(stored: seq<string>, w: Work, jobs: seq<Job>, n: nat, m: nat)
    requires n <= m <= |jobs| && forall k :: 0 <= k < |jobs| ==> jobs[k].index < |w.domains|
    ensures AssignAll(stored, w, jobs[..n]).keys <= AssignAll(stored, w, jobs[..m]).keys
  {
    hide AssignAll, NewSlug;
    if n < m {
      KeysGrow(stored, w, jobs, n, m - 1);
      AssignNext(stored, w, jobs, m - 1);
    }
  }

  /** A temple's domain is set by its job and by no other. */
  lemma {:induction false} DomainIsSetOnce(stored: seq<string>, w: Work, jobs: seq<Job>, n: nat, m: nat)
    requires n < m <= |jobs| && DistinctJobs(jobs) && forall k :: 0 <= k < |jobs| ==> jobs[k].index < |w.domains|
    ensures AssignAll(stored, w, jobs[..m]).domains[jobs[n].index]
         == NewSlug(stored, AssignAll(stored, w, jobs[..n]).keys, jobs[n])
    ensures NewSlug(stored, AssignAll(stored, w, jobs[..n]).keys, jobs[n]) in AssignAll(stored, w, jobs[..m]).keys
  {
    hide NewSlug, AssignAll;
    AssignNext(stored, w, jobs, m - 1);
    if n < m - 1 {
      DomainIsSetOnce(stored, w, jobs, n, m - 1);
    }
  }

  lemma LowerNumber(stored: seq<string>, early: set<string>, late: set<string>, first: Job, second: Job)
    requires first.base == second.base && first.start == second.start && early <= late
    requires NewSlug(stored, early, first) in late && first.index != second.index && second.index < |stored|
    ensures exists a: nat, b: nat ::
              && NewSlug(stored, early, first) == Candidate(first.base, a)
              && NewSlug(stored, late, second) == Candidate(second.base, b)
              && (a < b || NewSlug(stored, late, second) == stored[second.index])
  {
    hide Candidate;
    NewSlugIs(stored, early, first);
    NewSlugIs(stored, late, second);
    var a := Fresh(first.base, first.start, Taken(stored, first.index, early));
    var b := Fresh(second.base, second.start, Taken(stored, second.index, late));
    var slug := Candidate(second.base, b);
    if b < a {
      assert slug in Taken(stored, first.index, early);
      assert slug !in Taken(stored, second.index, late);
      assert slug !in late && slug !in early;
      forall k | 0 <= k < |stored| && k != second.index ensures stored[k] != slug {
        assert stored[k] in Taken(stored, second.index, late);
      }
    }
  }

  /** Theorem: of two temples rebuilt from the same base the one repaired first gets the lower number, unless the
      other one keeps the domain it has. */
  lemma EarlierGetsLowerNumber(ts: seq<Temple>, n: nat, m: nat)
    requires n < m < |Jobs(ts)| && Jobs(ts)[n].base == Jobs(ts)[m].base
    requires Jobs(ts)[n].start == Jobs(ts)[m].start
    ensures var i, j := Jobs(ts)[n].index, Jobs(ts)[m].index;
      && i < |ts| && j < |ts|
      && exists a: nat, b: nat ::
           && Repaired(ts)[i].domain == Candidate(Jobs(ts)[n].base, a)
           && Repaired(ts)[j].domain == Candidate(Jobs(ts)[m].base, b)
           && (a < b || Repaired(ts)[j].domain == ts[j].domain)
  {
    hide NewSlug, Candidate, Jobs, DistinctJobs;
    var stored, jobs := DomainsOf(ts), Jobs(ts);
    var w := StartOf(stored);
    JobsContents(ts);
    JobIndices(ts);
    RepairedDomains(ts);
    assert jobs[..|jobs|] == jobs;
    DomainIsSetOnce(stored, w, jobs, n, |jobs|);
    DomainIsSetOnce(stored, w, jobs, m, |jobs|);
    DomainIsSetOnce(stored, w, jobs, n, m);
    KeysGrow(stored, w, jobs, n, m);
    assert jobs[n].index != jobs[m].index by { DistinctMeans(jobs, n, m); }
    LowerNumber(stored, AssignAll(stored, w, jobs[..n]).keys, AssignAll(stored, w, jobs[..m]).keys, jobs[n], jobs[m]);
  }

  lemma DistinctMeans(jobs: seq<Job>, n: nat, m: nat)
    requires DistinctJobs(jobs) && n < m < |jobs|
    ensures jobs[n].index != jobs[m].index
  {
  }
}
