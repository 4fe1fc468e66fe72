/** The slug validation and repair run over all temples.

    The session never flushes before the final commit, so the database side of every uniqueness check sees the domains
    as they were; the in-memory slug map sees the new ones too. `Repaired` is the meaning of the run: a list of jobs,
    each of which takes the first free candidate. */
module SlugRepair {
  import opened Slugs

  /** The first eight characters of a UUID's text. */
  type IdPrefix = s: string | |s| == 8 && AllSlugChars(s) witness "00000000"

  datatype Temple = Temple(idPrefix: IdPrefix, name: string, domain: string)

  /** One temple to rename: candidates of `base` from number `start` on. */
  datatype Job = Job(index: nat, base: string, start: nat)

  /** Domains so far, and the keys of the slug map. */
  datatype Work = Work(domains: seq<string>, keys: set<string>)

  function DomainsOf(ts: seq<Temple>): (ds: seq<string>)
    ensures |ds| == |ts|
  {
    seq(|ts|, i requires 0 <= i < |ts| => ts[i].domain)
  }

  // ----- classification -----

  predicate IsInvalid(s: string) { !IsMissing(s) && !Accepted(s) }

  predicate IsValid(s: string) { !IsMissing(s) && Accepted(s) }

  lemma AcceptedIsValid(s: string)
    requires Accepted(s)
    ensures IsValid(s)
  {
    assert s[0] in s;
    if |s| >= 2 {
      assert s[0] in s[..|s| - 1];
    }
    assert SlugChar(s[0]);
  }

  /** Positions below n whose domain satisfies p, in order. */
  function Positions(ds: seq<string>, n: nat, p: string -> bool): seq<nat>
    requires n <= |ds|
  {
    if n == 0 then [] else Positions(ds, n - 1, p) + if p(ds[n - 1]) then [n - 1] else []
  }

  function Missing(ds: seq<string>, n: nat): seq<nat>
    requires n <= |ds|
  {
    Positions(ds, n, s => IsMissing(s))
  }

  function Invalid(ds: seq<string>, n: nat): seq<nat>
    requires n <= |ds|
  {
    Positions(ds, n, s => IsInvalid(s))
  }

  function Holders(ds: seq<string>, n: nat, slug: string): seq<nat>
    requires n <= |ds|
  {
    Positions(ds, n, s => s == slug)
  }

  /** The keys of the slug map in insertion order: valid slugs by first appearance. */
  function SlugOrder(ds: seq<string>, n: nat): seq<string>
    requires n <= |ds|
  {
    if n == 0 then []
    else
      var front := SlugOrder(ds, n - 1);
      if IsValid(ds[n - 1]) && ds[n - 1] !in front then front + [ds[n - 1]] else front
  }

  lemma {:induction false} PositionsContents(ds: seq<string>, n: nat, p: string -> bool)
    requires n <= |ds|
    ensures forall i: nat :: i in Positions(ds, n, p) <==> i < n && p(ds[i])
    ensures forall i, j :: 0 <= i < j < |Positions(ds, n, p)| ==> Positions(ds, n, p)[i] < Positions(ds, n, p)[j]
  {
    if n > 0 {
      PositionsContents(ds, n - 1, p);
      var front := Positions(ds, n - 1, p);
      assert forall i :: 0 <= i < |front| ==> front[i] in front;
    }
  }

  lemma {:induction false} SlugOrderContents(ds: seq<string>, n: nat)
    requires n <= |ds|
    ensures forall s :: s in SlugOrder(ds, n) <==> exists i :: 0 <= i < n && ds[i] == s && IsValid(s)
    ensures forall i, j :: 0 <= i < j < |SlugOrder(ds, n)| ==> SlugOrder(ds, n)[i] != SlugOrder(ds, n)[j]
  {
    if n > 0 {
      SlugOrderContents(ds, n - 1);
    }
  }

  // ----- jobs -----

  function BaseOf(t: Temple): string {
    if Slugify(t.name) == "" then "temple-" + t.idPrefix else Slugify(t.name)
  }

  /** Missing slugs first, then invalid ones. */
  function FormatJobs(ts: seq<Temple>, order: seq<nat>): (jobs: seq<Job>)
    requires forall i :: i in order ==> i < |ts|
    ensures |jobs| == |order|
    ensures forall n :: 0 <= n < |jobs| ==> jobs[n].index < |ts|
  {
    assert forall n :: 0 <= n < |order| ==> order[n] in order;
    seq(|order|, n requires 0 <= n < |order| => Job(order[n], BaseOf(ts[order[n]]), 0))
  }

  /** All holders of a slug but the first. */
  function SlugJobs(holders: seq<nat>, slug: string): seq<Job> {
    if holders == [] then []
    else seq(|holders| - 1, n requires 0 <= n < |holders| - 1 => Job(holders[n + 1], slug, n + 1))
  }

  function DuplicateJobs(ds: seq<string>, slugs: seq<string>): seq<Job> {
    if slugs == [] then []
    else
      var m := |slugs| - 1;
      DuplicateJobs(ds, slugs[..m]) + SlugJobs(Holders(ds, |ds|, slugs[m]), slugs[m])
  }

  function RepairOrder(ds: seq<string>): (order: seq<nat>)
    ensures forall i :: i in order ==> i < |ds|
  {
    PositionsContents(ds, |ds|, s => IsMissing(s));
    PositionsContents(ds, |ds|, s => IsInvalid(s));
    Missing(ds, |ds|) + Invalid(ds, |ds|)
  }

  function Jobs(ts: seq<Temple>): seq<Job> {
    var ds := DomainsOf(ts);
    FormatJobs(ts, RepairOrder(ds)) + DuplicateJobs(ds, SlugOrder(ds, |ds|))
  }

  // ----- the run -----

  /** What the uniqueness check of temple i rejects: every other temple's stored domain and every key of the map. */
  function Taken(stored: seq<string>, i: nat, keys: set<string>): set<string> {
    (set j | 0 <= j < |stored| && j != i :: stored[j]) + keys
  }

  function NewSlug(stored: seq<string>, keys: set<string>, job: Job): string {
    Candidate(job.base, Fresh(job.base, job.start, Taken(stored, job.index, keys)))
  }

  function Assign(stored: seq<string>, w: Work, job: Job): (w': Work)
    requires job.index < |w.domains|
    ensures |w'.domains| == |w.domains|
  {
    var slug := NewSlug(stored, w.keys, job);
    Work(w.domains[job.index := slug], w.keys + {slug})
  }

  function AssignAll(stored: seq<string>, w: Work, jobs: seq<Job>): (w': Work)
    requires forall n :: 0 <= n < |jobs| ==> jobs[n].index < |w.domains|
    ensures |w'.domains| == |w.domains|
  {
    if jobs == [] then w
    else
      var m := |jobs| - 1;
      Assign(stored, AssignAll(stored, w, jobs[..m]), jobs[m])
  }

  function StartOf(ds: seq<string>): Work {
    Work(ds, set s | s in SlugOrder(ds, |ds|))
  }

  function FinalDomains(ts: seq<Temple>): (ds: seq<string>)
    ensures |ds| == |ts|
  {
    JobIndices(ts);
    AssignAll(DomainsOf(ts), StartOf(DomainsOf(ts)), Jobs(ts)).domains
  }

  function WithDomains(ts: seq<Temple>, ds: seq<string>): (w: seq<Temple>)
    requires |ds| == |ts|
    ensures |w| == |ts|
  {
    seq(|ts|, i requires 0 <= i < |ts| => ts[i].(domain := ds[i]))
  }

  /** The temples after the run. */
  function Repaired(ts: seq<Temple>): (w: seq<Temple>)
    ensures |w| == |ts|
  {
    WithDomains(ts, FinalDomains(ts))
  }

  // ----- which temples have a job -----

  /** Missing, invalid, or a later holder of a valid slug. */
  predicate NeedsJob(ds: seq<string>, i: nat)
    requires i < |ds|
  {
    !IsValid(ds[i]) || exists j :: 0 <= j < i && ds[j] == ds[i]
  }

  predicate HasJob(jobs: seq<Job>, i: nat) { exists n :: 0 <= n < |jobs| && jobs[n].index == i }

  ghost predicate DistinctJobs(jobs: seq<Job>) {
    forall n, m :: 0 <= n < m < |jobs| ==> jobs[n].index != jobs[m].index
  }

  /** How many temples before i hold the slug. */
  function EarlierHolders(ds: seq<string>, i: nat, slug: string): nat
    requires i <= |ds|
  {
    |set j | 0 <= j < i && ds[j] == slug|
  }

  lemma {:induction false} HoldersCount(ds: seq<string>, n: nat, slug: string)
    requires n <= |ds|
    ensures |Holders(ds, n, slug)| == EarlierHolders(ds, n, slug)
  {
    if n > 0 {
      HoldersCount(ds, n - 1, slug);
      var before, now := set j | 0 <= j < n - 1 && ds[j] == slug, set j | 0 <= j < n && ds[j] == slug;
      assert now == if ds[n - 1] == slug then before + {n - 1} else before;
    }
  }

  /** A holder's place in the list is the number of earlier holders. */
  lemma {:induction false} HoldersRank(ds: seq<string>, n: nat, slug: string, k: nat)
    requires n <= |ds| && k < |Holders(ds, n, slug)|
    ensures Holders(ds, n, slug)[k] < n && k == EarlierHolders(ds, Holders(ds, n, slug)[k], slug)
  {
    var front := Holders(ds, n - 1, slug);
    if k < |front| {
      HoldersRank(ds, n - 1, slug, k);
    } else {
      HoldersCount(ds, n - 1, slug);
    }
  }

  lemma HoldersContents(ds: seq<string>, slug: string)
    ensures forall i: nat :: i in Holders(ds, |ds|, slug) <==> i < |ds| && ds[i] == slug
    ensures var h := Holders(ds, |ds|, slug); forall i, j :: 0 <= i < j < |h| ==> h[i] < h[j]
  {
    PositionsContents(ds, |ds|, s => s == slug);
  }

  lemma SlugJobsContents(ds: seq<string>, slug: string)
    ensures var jobs := SlugJobs(Holders(ds, |ds|, slug), slug);
      && DistinctJobs(jobs)
      && (forall n :: 0 <= n < |jobs| ==> jobs[n].index < |ds| && ds[jobs[n].index] == slug && jobs[n].base == slug
                                          && jobs[n].start >= 1
                                          && jobs[n].start == EarlierHolders(ds, jobs[n].index, slug))
      && forall i: nat :: HasJob(jobs, i) <==> i < |ds| && ds[i] == slug && exists j :: 0 <= j < i && ds[j] == slug
  {
    var h := Holders(ds, |ds|, slug);
    HoldersContents(ds, slug);
    var jobs := SlugJobs(h, slug);
    hide EarlierHolders, Holders, HasJob;
    forall n | 0 <= n < |jobs|
      ensures jobs[n].index < |ds| && ds[jobs[n].index] == slug
          && jobs[n].start == EarlierHolders(ds, jobs[n].index, slug)
    {
      assert h[n + 1] in h;
      HoldersRank(ds, |ds|, slug, n + 1);
    }
    forall i: nat
      ensures HasJob(jobs, i) <==> i < |ds| && ds[i] == slug && exists j :: 0 <= j < i && ds[j] == slug
    {
      LaterHolder(ds, slug, h, i);
    }
  }

  lemma LaterHolder(ds: seq<string>, slug: string, h: seq<nat>, i: nat)
    requires forall k: nat :: k in h <==> k < |ds| && ds[k] == slug
    requires forall k, m :: 0 <= k < m < |h| ==> h[k] < h[m]
    ensures HasJob(SlugJobs(h, slug), i) <==> i < |ds| && ds[i] == slug && exists j :: 0 <= j < i && ds[j] == slug
  {
    var jobs := SlugJobs(h, slug);
    if n :| 0 <= n < |jobs| && jobs[n].index == i {
      assert h[0] in h && h[n + 1] in h && h[0] < h[n + 1];
    }
    if i < |ds| && ds[i] == slug && exists j :: 0 <= j < i && ds[j] == slug {
      var j :| 0 <= j < i && ds[j] == slug;
      assert i in h && j in h;
      var m :| 0 <= m < |h| && h[m] == i;
      var k :| 0 <= k < |h| && h[k] == j;
      assert jobs[m - 1].index == i;
    }
  }

  lemma {:induction false} DuplicateJobsContents(ds: seq<string>, slugs: seq<string>)
    requires forall n, m :: 0 <= n < m < |slugs| ==> slugs[n] != slugs[m]
    ensures var jobs := DuplicateJobs(ds, slugs);
      && DistinctJobs(jobs)
      && (forall n :: 0 <= n < |jobs| ==>
            && jobs[n].index < |ds| && ds[jobs[n].index] == jobs[n].base && jobs[n].base in slugs
            && jobs[n].start >= 1 && jobs[n].start == EarlierHolders(ds, jobs[n].index, jobs[n].base))
      && forall i: nat :: HasJob(jobs, i) <==> i < |ds| && ds[i] in slugs && exists j :: 0 <= j < i && ds[j] == ds[i]
  {
    hide EarlierHolders;
    if slugs != [] {
      var m := |slugs| - 1;
      var front, last := slugs[..m], slugs[m];
      assert slugs == front + [last];
      DuplicateJobsContents(ds, front);
      SlugJobsContents(ds, last);
      JobsConcat(DuplicateJobs(ds, front), SlugJobs(Holders(ds, |ds|, last), last));
    }
  }

  lemma JobsConcat(a: seq<Job>, b: seq<Job>)
    ensures forall i: nat :: HasJob(a + b, i) <==> HasJob(a, i) || HasJob(b, i)
    ensures DistinctJobs(a) && DistinctJobs(b) && (forall i: nat :: !(HasJob(a, i) && HasJob(b, i)))
            ==> DistinctJobs(a + b)
  {
    forall i: nat ensures HasJob(a + b, i) <==> HasJob(a, i) || HasJob(b, i) {
      if n :| 0 <= n < |a| && a[n].index == i { assert (a + b)[n].index == i; }
      if n :| 0 <= n < |b| && b[n].index == i { assert (a + b)[|a| + n].index == i; }
    }
    if DistinctJobs(a) && DistinctJobs(b) && forall i: nat :: !(HasJob(a, i) && HasJob(b, i)) {
      forall n, m | 0 <= n < m < |a + b| ensures (a + b)[n].index != (a + b)[m].index {
        if n < |a| <= m {
          assert HasJob(a, a[n].index) && HasJob(b, b[m - |a|].index);
        }
      }
    }
  }

  lemma RepairOrderContents(ds: seq<string>)
    ensures forall i: nat :: i in RepairOrder(ds) <==> i < |ds| && !IsValid(ds[i])
    ensures var o := RepairOrder(ds); forall n, m :: 0 <= n < m < |o| ==> o[n] != o[m]
  {
    PositionsContents(ds, |ds|, s => IsMissing(s));
    PositionsContents(ds, |ds|, s => IsInvalid(s));
    var a, b := Missing(ds, |ds|), Invalid(ds, |ds|);
    forall n, m | 0 <= n < m < |a + b| ensures (a + b)[n] != (a + b)[m] {
      if n < |a| <= m {
        assert a[n] in a && b[m - |a|] in b;
      }
    }
  }

  lemma FormatJobsContents(ts: seq<Temple>)
    ensures var ds := DomainsOf(ts); var jobs := FormatJobs(ts, RepairOrder(ds));
      && DistinctJobs(jobs)
      && (forall n :: 0 <= n < |jobs| ==> jobs[n].index < |ts| && !IsValid(ds[jobs[n].index])
                                          && jobs[n].base == BaseOf(ts[jobs[n].index]) && jobs[n].start == 0)
      && forall i: nat :: HasJob(jobs, i) <==> i < |ds| && !IsValid(ds[i])
  {
    var ds := DomainsOf(ts);
    var o := RepairOrder(ds);
    RepairOrderContents(ds);
    var jobs := FormatJobs(ts, o);
    assert forall n :: 0 <= n < |jobs| ==> jobs[n].index == o[n] && o[n] in o;
    forall i: nat ensures HasJob(jobs, i) <==> i in o {
      if i in o {
        var n :| 0 <= n < |o| && o[n] == i;
        assert jobs[n].index == i;
      }
    }
  }

  /** What a job looks like: a numbered copy of the shared slug, from the number of its earlier holders on; or a fresh
      start from the slug of the name, or from the temple's id if that is empty. */
  predicate JobFits(ts: seq<Temple>, job: Job) {
    && job.index < |ts|
    && var t := ts[job.index];
    && if IsValid(t.domain) then
         job.base == t.domain && job.start >= 1 && job.start == EarlierHolders(DomainsOf(ts), job.index, t.domain)
       else
         job.start == 0 && job.base == if Slugify(t.name) == "" then "temple-" + t.idPrefix else Slugify(t.name)
  }

  /** Theorem: exactly the temples with a missing, an invalid or a duplicated slug get a job, one each. */
  lemma JobsContents(ts: seq<Temple>)
    ensures DistinctJobs(Jobs(ts))
    ensures forall n :: 0 <= n < |Jobs(ts)| ==> JobFits(ts, Jobs(ts)[n])
    ensures forall i: nat :: HasJob(Jobs(ts), i) <==> i < |ts| && NeedsJob(DomainsOf(ts), i)
  {
    hide FormatJobs, DuplicateJobs, SlugOrder, RepairOrder, IsValid, EarlierHolders, Slugify;
    var ds := DomainsOf(ts);
    var a, b := FormatJobs(ts, RepairOrder(ds)), DuplicateJobs(ds, SlugOrder(ds, |ds|));
    FormatJobsContents(ts);
    SlugOrderContents(ds, |ds|);
    DuplicateJobsContents(ds, SlugOrder(ds, |ds|));
    JobsConcat(a, b);
    assert Jobs(ts) == a + b;
    forall i: nat | i < |ds| ensures ds[i] in SlugOrder(ds, |ds|) <==> IsValid(ds[i]) {
    }
  }

  lemma JobIndices(ts: seq<Temple>)
    ensures forall n :: 0 <= n < |Jobs(ts)| ==> Jobs(ts)[n].index < |ts|
  {
    JobsContents(ts);
  }

  // ----- the invariant of the assignments -----

  /** The slug is the first candidate that the stored domains of the others and the slug map leave free. */
  ghost predicate Chosen(stored: seq<string>, keys: set<string>, job: Job, slug: string) {
    exists k: nat :: job.start <= k && slug == Candidate(job.base, k)
      && forall j: nat :: job.start <= j < k ==> Candidate(job.base, j) in Taken(stored, job.index, keys)
  }

  /** After the first jobs: their temples hold pairwise distinct new slugs that are keys now, were not keys before and
      are no other temple's stored domain; everyone else is untouched. */
  ghost predicate Assigned(stored: seq<string>, keys: set<string>, jobs: seq<Job>, w: Work) {
    && |w.domains| == |stored|
    && keys <= w.keys
    && (forall i: nat :: i < |stored| && !HasJob(jobs, i) ==> w.domains[i] == stored[i])
    && (forall i: nat :: i < |stored| && HasJob(jobs, i) ==>
          w.domains[i] in w.keys && w.domains[i] !in keys
          && forall j :: 0 <= j < |stored| && j != i ==> stored[j] != w.domains[i])
    && (forall i: nat, j: nat :: i < |stored| && j < |stored| && i != j && HasJob(jobs, i) && HasJob(jobs, j)
          ==> w.domains[i] != w.domains[j])
    && (forall k :: k in w.keys ==> k in keys || exists i :: 0 <= i < |stored| && HasJob(jobs, i) && w.domains[i] == k)
    && forall n :: 0 <= n < |jobs| && jobs[n].index < |stored|
         ==> Chosen(stored, w.keys, jobs[n], w.domains[jobs[n].index])
  }

  lemma ChosenStays(stored: seq<string>, keys: set<string>, more: set<string>, job: Job, slug: string)
    requires Chosen(stored, keys, job, slug) && keys <= more
    ensures Chosen(stored, more, job, slug)
  {
    var k: nat :| job.start <= k && slug == Candidate(job.base, k)
      && forall j: nat :: job.start <= j < k ==> Candidate(job.base, j) in Taken(stored, job.index, keys);
  }

  lemma NewSlugIsFree(stored: seq<string>, keys: set<string>, job: Job)
    ensures var slug := NewSlug(stored, keys, job);
      && slug !in keys
      && (forall j :: 0 <= j < |stored| && j != job.index ==> stored[j] != slug)
      && Chosen(stored, keys, job, slug)
  {
    var slug := NewSlug(stored, keys, job);
    assert slug !in Taken(stored, job.index, keys);
    forall j | 0 <= j < |stored| && j != job.index ensures stored[j] != slug {
      assert stored[j] in Taken(stored, job.index, keys);
    }
  }

  lemma HasJobStep(jobs: seq<Job>, m: nat)
    requires m < |jobs|
    ensures forall i: nat :: HasJob(jobs[..m + 1], i) <==> HasJob(jobs[..m], i) || i == jobs[m].index
  {
    assert jobs[..m + 1] == jobs[..m] + [jobs[m]];
    JobsConcat(jobs[..m], [jobs[m]]);
    assert forall i: nat :: HasJob([jobs[m]], i) <==> i == jobs[m].index by {
      assert [jobs[m]][0].index == jobs[m].index;
    }
  }

  lemma AssignKeeps(stored: seq<string>, keys: set<string>, jobs: seq<Job>, m: nat, w: Work)
    requires m < |jobs| && jobs[m].index < |stored| && !HasJob(jobs[..m], jobs[m].index)
    requires Assigned(stored, keys, jobs[..m], w)
    ensures Assigned(stored, keys, jobs[..m + 1], Assign(stored, w, jobs[m]))
  {
    hide NewSlug, HasJob, Chosen;
    HasJobStep(jobs, m);
    NewSlugIsFree(stored, w.keys, jobs[m]);
    var w' := Assign(stored, w, jobs[m]);
    var slug := NewSlug(stored, w.keys, jobs[m]);
    assert w'.domains[jobs[m].index] == slug;
    forall n | 0 <= n < m + 1 && jobs[n].index < |stored|
      ensures Chosen(stored, w'.keys, jobs[n], w'.domains[jobs[n].index])
    {
      if n < m {
        assert jobs[..m][n] == jobs[n];
        ListedHasJob(jobs[..m], n);
        ChosenStays(stored, w.keys, w'.keys, jobs[n], w.domains[jobs[n].index]);
      } else {
        ChosenStays(stored, w.keys, w'.keys, jobs[m], slug);
      }
    }
  }

  lemma ListedHasJob(jobs: seq<Job>, n: nat)
    requires n < |jobs|
    ensures HasJob(jobs, jobs[n].index)
  {
  }

  lemma {:induction false} AssignAllKeeps(stored: seq<string>, w: Work, jobs: seq<Job>, m: nat)
    requires w.domains == stored && DistinctJobs(jobs) && m <= |jobs|
    requires forall n :: 0 <= n < |jobs| ==> jobs[n].index < |stored|
    ensures Assigned(stored, w.keys, jobs[..m], AssignAll(stored, w, jobs[..m]))
  {
    hide Assigned, Assign;
    if m == 0 {
      StartsAssigned(stored, w);
      assert jobs[..0] == [];
    } else {
      AssignAllKeeps(stored, w, jobs, m - 1);
      assert jobs[..m][..m - 1] == jobs[..m - 1];
      AssignKeeps(stored, w.keys, jobs, m - 1, AssignAll(stored, w, jobs[..m - 1]));
    }
  }

  lemma StartsAssigned(stored: seq<string>, w: Work)
    requires w.domains == stored
    ensures Assigned(stored, w.keys, [], w)
  {
  }

  lemma FinalIsAssigned(ts: seq<Temple>)
    ensures Assigned(DomainsOf(ts), StartOf(DomainsOf(ts)).keys, Jobs(ts),
                     Work(FinalDomains(ts), FinalSlugs(ts)))
  {
    hide Assigned, Jobs;
    JobsContents(ts);
    AssignAllKeeps(DomainsOf(ts), StartOf(DomainsOf(ts)), Jobs(ts), |Jobs(ts)|);
    assert Jobs(ts)[..|Jobs(ts)|] == Jobs(ts);
  }

  // ----- theorems -----

  /** Theorem: only temples with a missing, an invalid or a later-duplicate slug change; in particular the first
      holder of every valid slug keeps it. */
  lemma OthersKeepTheirSlug(ts: seq<Temple>, i: nat)
    requires i < |ts| && !NeedsJob(DomainsOf(ts), i)
    ensures Repaired(ts)[i] == ts[i]
  {
    hide Jobs, FinalDomains, NeedsJob, HasJob;
    FinalIsAssigned(ts);
    JobsContents(ts);
  }

  /** Theorem: a new slug is nobody else's stored domain, so whichever of the updates have reached the table, a renamed
      temple never collides with one that was not renamed yet. */
  lemma NewSlugsAvoidStoredOnes(ts: seq<Temple>, i: nat, j: nat)
    requires i < |ts| && j < |ts| && i != j && NeedsJob(DomainsOf(ts), i)
    ensures Repaired(ts)[i].domain != ts[j].domain
  {
    hide Jobs, FinalDomains, NeedsJob, HasJob;
    FinalIsAssigned(ts);
    JobsContents(ts);
    assert DomainsOf(ts)[j] == ts[j].domain;
  }

  /** Theorem: nothing but domains changes. */
  lemma OnlyDomainsChange(ts: seq<Temple>, i: nat)
    requires i < |ts|
    ensures Repaired(ts)[i].idPrefix == ts[i].idPrefix && Repaired(ts)[i].name == ts[i].name
  {
    hide FinalDomains;
  }

  /** Theorem: after the run all domains are pairwise distinct. */
  lemma RepairedDistinct(ts: seq<Temple>, i: nat, j: nat)
    requires i < |ts| && j < |ts| && i != j
    ensures Repaired(ts)[i].domain != Repaired(ts)[j].domain
  {
    hide Jobs, FinalDomains, HasJob;
    FinalIsAssigned(ts);
    JobsContents(ts);
    var ds := DomainsOf(ts);
    if !NeedsJob(ds, i) && !NeedsJob(ds, j) {
      var low, high := if i < j then i else j, if i < j then j else i;
      assert ds[low] != ds[high];
    }
  }

  /** The slugs in use after the run: the valid stored ones and the new ones. */
  function FinalSlugs(ts: seq<Temple>): set<string> {
    JobIndices(ts);
    AssignAll(DomainsOf(ts), StartOf(DomainsOf(ts)), Jobs(ts)).keys
  }

  lemma FinalSlugsContents(ts: seq<Temple>, slug: string)
    ensures slug in FinalSlugs(ts) ==> exists i :: 0 <= i < |ts| && Repaired(ts)[i].domain == slug
  {
    hide Jobs, FinalDomains, HasJob, SlugOrder, Repaired;
    FinalIsAssigned(ts);
    JobsContents(ts);
    var ds := DomainsOf(ts);
    SlugOrderContents(ds, |ds|);
    RepairedDomains(ts);
    if slug in StartOf(ds).keys {
      var i :| 0 <= i < |ds| && ds[i] == slug && IsValid(slug);
      FirstHolder(ts, i);
    }
  }

  lemma RepairedDomains(ts: seq<Temple>)
    ensures forall i :: 0 <= i < |ts| ==> Repaired(ts)[i].domain == FinalDomains(ts)[i]
  {
  }

  lemma FirstHolder(ts: seq<Temple>, i: nat)
    requires i < |ts| && IsValid(ts[i].domain)
    ensures exists j :: 0 <= j <= i && Repaired(ts)[j].domain == ts[i].domain
  {
    hide Jobs, FinalDomains, Repaired, IsValid;
    var ds := DomainsOf(ts);
    if NeedsJob(ds, i) {
      var j :| 0 <= j < i && ds[j] == ds[i];
      FirstHolder(ts, j);
    } else {
      OthersKeepTheirSlug(ts, i);
    }
  }

  /** A slug is somebody's: another temple's stored domain, or a domain after the run. */
  predicate InUse(ts: seq<Temple>, i: nat, slug: string) {
    exists m :: 0 <= m < |ts| && ((m != i && ts[m].domain == slug) || Repaired(ts)[m].domain == slug)
  }

  lemma TakenIsInUse(ts: seq<Temple>, i: nat, slug: string)
    requires slug in Taken(DomainsOf(ts), i, FinalSlugs(ts))
    ensures InUse(ts, i, slug)
  {
    hide Repaired, FinalSlugs;
    if slug in FinalSlugs(ts) {
      FinalSlugsContents(ts, slug);
    } else {
      var m :| 0 <= m < |ts| && m != i && DomainsOf(ts)[m] == slug;
      assert ts[m].domain == slug;
    }
  }

  lemma NewSlugIsChosen(ts: seq<Temple>, n: nat)
    requires n < |Jobs(ts)|
    ensures var job := Jobs(ts)[n];
      && JobFits(ts, job)
      && Chosen(DomainsOf(ts), FinalSlugs(ts), job, Repaired(ts)[job.index].domain)
  {
    hide Jobs, FinalDomains, HasJob, Chosen;
    FinalIsAssigned(ts);
    JobsContents(ts);
  }

  /** Theorem: every renamed temple gets the first numbered candidate of its base that nobody has: all earlier
      candidates are another temple's stored domain or some temple's domain after the run. */
  lemma NewSlugIsFirstFree(ts: seq<Temple>, n: nat)
    requires n < |Jobs(ts)|
    ensures var job := Jobs(ts)[n];
      && JobFits(ts, job)
      && exists k: nat ::
           && job.start <= k && Repaired(ts)[job.index].domain == Candidate(job.base, k)
           && forall j: nat :: job.start <= j < k ==> InUse(ts, job.index, Candidate(job.base, j))
  {
    hide Jobs, FinalSlugs, Taken, Repaired, InUse, Candidate;
    NewSlugIsChosen(ts, n);
    var job := Jobs(ts)[n];
    var k: nat :| job.start <= k && Repaired(ts)[job.index].domain == Candidate(job.base, k)
      && forall j: nat :: job.start <= j < k
          ==> Candidate(job.base, j) in Taken(DomainsOf(ts), job.index, FinalSlugs(ts));
    forall j: nat | job.start <= j < k ensures InUse(ts, job.index, Candidate(job.base, j)) {
      TakenIsInUse(ts, job.index, Candidate(job.base, j));
    }
  }

  // ----- acceptance -----

  lemma {:induction false} CandidateAccepted(base: string, k: nat)
    requires k > 0
    ensures Accepted(Candidate(base, k)) <==> AllSlugChars(base)
  {
    var c := Candidate(base, k);
    assert c == base + "-" + Decimal(k);
    var digits := Decimal(k);
    assert c[|c| - 1] == digits[|digits| - 1];
    assert digits[|digits| - 1] in digits;
    if AllSlugChars(base) {
      assert forall x :: x in c ==> x in base || x == '-' || x in digits;
    }
    if Accepted(c) {
      assert forall x :: x in base ==> x in c;
    }
  }

  lemma BaseAccepted(t: Temple)
    ensures BaseOf(t) != "" && (Accepted(BaseOf(t)) <==> '_' !in t.name)
    ensures AllSlugChars(BaseOf(t)) <==> '_' !in t.name
  {
    SlugAcceptedIff(t.name);
    SlugifyShape(t.name);
    var b := BaseOf(t);
    if Slugify(t.name) == "" {
      assert forall c :: c in b ==> c in "temple-" || c in t.idPrefix;
      assert AllSlugChars("temple-");
    } else {
      assert SlugOrUnderscore(b[|b| - 1]);
    }
  }

  /** Theorem: the exact condition under which a renamed temple ends up with an accepted slug: no underscore in the
      name it is rebuilt from, or no trailing newline in the shared slug it is numbered from. */
  lemma NewSlugAcceptedIff(ts: seq<Temple>, i: nat)
    requires i < |ts| && NeedsJob(DomainsOf(ts), i)
    ensures Accepted(Repaired(ts)[i].domain)
       <==> if IsValid(ts[i].domain) then !EndsInNewline(ts[i].domain) else '_' !in ts[i].name
  {
    hide Jobs, FinalDomains, Repaired, FinalSlugs, Slugify, EarlierHolders;
    JobsContents(ts);
    assert HasJob(Jobs(ts), i);
    var n :| 0 <= n < |Jobs(ts)| && Jobs(ts)[n].index == i;
    var job := Jobs(ts)[n];
    NewSlugIsFirstFree(ts, n);
    var k: nat :| job.start <= k && Repaired(ts)[i].domain == Candidate(job.base, k);
    BaseAccepted(ts[i]);
    if k > 0 {
      CandidateAccepted(job.base, k);
    }
    if IsValid(ts[i].domain) {
      ValidSharedSlug(ts[i].domain);
    }
  }

  lemma ValidSharedSlug(s: string)
    requires Accepted(s)
    ensures AllSlugChars(s) <==> !EndsInNewline(s)
  {
    assert s[|s| - 1] in s;
  }

  /** Theorem: after the run every slug is accepted exactly when no rebuilt name has an underscore and no slug shared by
      several temples ends in a newline. */
  lemma AllAcceptedIff(ts: seq<Temple>)
    ensures (forall i :: 0 <= i < |ts| ==> Accepted(Repaired(ts)[i].domain))
       <==> forall i: nat :: i < |ts| && NeedsJob(DomainsOf(ts), i)
              ==> if IsValid(ts[i].domain) then !EndsInNewline(ts[i].domain) else '_' !in ts[i].name
  {
    hide Jobs, FinalDomains, Repaired, EndsInNewline;
    forall i: nat | i < |ts|
      ensures Accepted(Repaired(ts)[i].domain)
         <==> (NeedsJob(DomainsOf(ts), i)
               ==> if IsValid(ts[i].domain) then !EndsInNewline(ts[i].domain) else '_' !in ts[i].name)
    {
      if NeedsJob(DomainsOf(ts), i) {
        NewSlugAcceptedIff(ts, i);
      } else {
        OthersKeepTheirSlug(ts, i);
      }
    }
  }

  /** Theorem: a second run finds nothing to do exactly if every slug is accepted after the first, and then it changes
      nothing. */
  lemma SecondRunIsIdle(ts: seq<Temple>)
    ensures Jobs(Repaired(ts)) == [] <==> forall i :: 0 <= i < |ts| ==> Accepted(Repaired(ts)[i].domain)
    ensures Jobs(Repaired(ts)) == [] ==> Repaired(Repaired(ts)) == Repaired(ts)
  {
    hide FinalDomains, Repaired, Accepted, NeedsJob, Jobs;
    var w := Repaired(ts);
    if forall i :: 0 <= i < |ts| ==> Accepted(w[i].domain) {
      forall i: nat | i < |w| ensures !NeedsJob(DomainsOf(w), i) {
        RepairedNeedsNoJob(ts, i);
      }
      NoJobs(w);
    }
    if Jobs(w) == [] {
      forall i: nat | i < |w| ensures Accepted(w[i].domain) && Repaired(w)[i] == w[i] {
        IdleMeansAccepted(w, i);
        OthersKeepTheirSlug(w, i);
      }
    }
  }

  lemma IdleMeansAccepted(w: seq<Temple>, i: nat)
    requires Jobs(w) == [] && i < |w|
    ensures !NeedsJob(DomainsOf(w), i) && Accepted(w[i].domain)
  {
    hide Jobs, Accepted;
    JobsContents(w);
  }

  /** A temple without a slug whose name has an underscore gets a slug that is not accepted. */
  lemma UnderscoreSurvives(prefix: IdPrefix)
    ensures !Accepted(Repaired([Temple(prefix, "a_b", "")])[0].domain)
  {
    hide Repaired, Accepted;
    var ts := [Temple(prefix, "a_b", "")];
    assert '_' == ts[0].name[1];
    assert !IsValid("");
    NewSlugAcceptedIff(ts, 0);
  }

  /** The second of two temples that share the accepted slug "a" and a newline gets one that is not accepted. */
  lemma SharedNewlineBreaks(ts: seq<Temple>)
    requires |ts| == 2 && ts[0].domain == ts[1].domain == "a\n"
    ensures Repaired(ts)[0].domain == "a\n" && Accepted("a\n") && !Accepted(Repaired(ts)[1].domain)
  {
    hide Repaired;
    assert "a\n"[..1] == "a" && Accepted("a\n");
    AcceptedIsValid("a\n");
    var ds := DomainsOf(ts);
    assert ds[0] == ds[1] == "a\n";
    assert !NeedsJob(ds, 0) && NeedsJob(ds, 1);
    OthersKeepTheirSlug(ts, 0);
    NewSlugAcceptedIff(ts, 1);
  }

  lemma RepairedNeedsNoJob(ts: seq<Temple>, i: nat)
    requires i < |ts| && Accepted(Repaired(ts)[i].domain)
    ensures !NeedsJob(DomainsOf(Repaired(ts)), i)
  {
    hide Repaired, IsValid, Accepted;
    var w := Repaired(ts);
    AcceptedIsValid(w[i].domain);
    forall j: nat | j < i ensures w[j].domain != w[i].domain {
      RepairedDistinct(ts, i, j);
    }
  }

  lemma NoJobs(w: seq<Temple>)
    requires forall i: nat :: i < |w| ==> !NeedsJob(DomainsOf(w), i)
    ensures Jobs(w) == []
  {
    hide Jobs;
    JobsContents(w);
    if Jobs(w) != [] {
      ListedHasJob(Jobs(w), 0);
    }
  }

  // ----- the script -----

  lemma {:induction false} AssignAllConcat(stored: seq<string>, w: Work, a: seq<Job>, b: seq<Job>)
    requires forall n :: 0 <= n < |a| ==> a[n].index < |w.domains|
    requires forall n :: 0 <= n < |b| ==> b[n].index < |w.domains|
    ensures AssignAll(stored, w, a + b) == AssignAll(stored, AssignAll(stored, w, a), b)
  {
    if b == [] {
      assert a + b == a;
    } else {
      var m := |b| - 1;
      AssignAllConcat(stored, w, a, b[..m]);
      assert (a + b)[..|a + b| - 1] == a + b[..m];
    }
  }

  lemma NewSlugIs(stored: seq<string>, keys: set<string>, job: Job)
    ensures NewSlug(stored, keys, job)
         == Candidate(job.base, Fresh(job.base, job.start, Taken(stored, job.index, keys)))
  {
  }

  lemma AssignNext(stored: seq<string>, w: Work, jobs: seq<Job>, n: nat)
    requires n < |jobs| && forall m :: 0 <= m < |jobs| ==> jobs[m].index < |w.domains|
    ensures AssignAll(stored, w, jobs[..n + 1]) == Assign(stored, AssignAll(stored, w, jobs[..n]), jobs[n])
  {
    assert jobs[..n + 1][..n] == jobs[..n];
  }

  lemma SlugJobIndices(ds: seq<string>, slug: string)
    ensures var jobs := SlugJobs(Holders(ds, |ds|, slug), slug); forall n :: 0 <= n < |jobs| ==> jobs[n].index < |ds|
  {
    SlugJobsContents(ds, slug);
  }

  lemma DuplicateJobsNext(ds: seq<string>, slugs: seq<string>, m: nat)
    requires m < |slugs|
    ensures DuplicateJobs(ds, slugs[..m + 1])
         == DuplicateJobs(ds, slugs[..m]) + SlugJobs(Holders(ds, |ds|, slugs[m]), slugs[m])
  {
    assert slugs[..m + 1][..m] == slugs[..m];
  }

  lemma {:induction false} DuplicateJobIndices(ds: seq<string>, slugs: seq<string>)
    ensures forall n :: 0 <= n < |DuplicateJobs(ds, slugs)| ==> DuplicateJobs(ds, slugs)[n].index < |ds|
  {
    if slugs != [] {
      DuplicateJobIndices(ds, slugs[..|slugs| - 1]);
      SlugJobIndices(ds, slugs[|slugs| - 1]);
    }
  }

  class TempleRegistry {
    var temples: seq<Temple>

    constructor (temples: seq<Temple>)
      ensures this.temples == temples
    {
      this.temples := temples;
    }

    /** The report's classification: positions of missing and invalid slugs, and the slug map with its key order. */
    method Classify() returns (missing: seq<nat>, invalid: seq<nat>, slugOrder: seq<string>,
                               slugMap: map<string, seq<nat>>)
      ensures var ds := DomainsOf(temples);
        && missing == Missing(ds, |ds|) && invalid == Invalid(ds, |ds|) && slugOrder == SlugOrder(ds, |ds|)
        && (forall s :: s in slugMap <==> s in slugOrder)
        && forall s :: s in slugMap ==> slugMap[s] == Holders(ds, |ds|, s)
    {
      hide Positions, SlugOrder, IsMissing, Accepted, Missing, Invalid, Holders;
      ghost var ds := DomainsOf(temples);
      missing, invalid, slugOrder, slugMap := [], [], [], map[];
      ClassifyNone(ds);
      for n := 0 to |temples|
        invariant missing == Missing(ds, n) && invalid == Invalid(ds, n) && slugOrder == SlugOrder(ds, n)
        invariant forall s :: s in slugMap <==> s in slugOrder
        invariant forall s :: s in slugMap ==> slugMap[s] == Holders(ds, n, s)
        invariant forall i :: 0 <= i < n && IsValid(ds[i]) ==> ds[i] in slugMap
        invariant forall s :: s in slugMap ==> IsValid(s)
      {
        var slug := temples[n].domain;
        if IsMissing(slug) {
          missing := missing + [n];
        } else if !Accepted(slug) {
          invalid := invalid + [n];
        } else {
          if slug !in slugMap {
            NoHolderYet(ds, n, slug);
            slugMap := slugMap[slug := []];
            slugOrder := slugOrder + [slug];
          }
          slugMap := slugMap[slug := slugMap[slug] + [n]];
        }
        ClassifyStep(ds, n);
        HoldersStep(ds, n, slugMap.Keys);
      }
    }

    lemma ClassifyNone(ds: seq<string>)
      ensures Missing(ds, 0) == [] && Invalid(ds, 0) == [] && SlugOrder(ds, 0) == []
    {
    }

    lemma ClassifyStep(ds: seq<string>, n: nat)
      requires n < |ds|
      ensures Missing(ds, n + 1) == Missing(ds, n) + if IsMissing(ds[n]) then [n] else []
      ensures Invalid(ds, n + 1) == Invalid(ds, n) + if IsInvalid(ds[n]) then [n] else []
      ensures SlugOrder(ds, n + 1)
           == SlugOrder(ds, n) + if IsValid(ds[n]) && ds[n] !in SlugOrder(ds, n) then [ds[n]] else []
    {
    }

    lemma NoHolderYet(ds: seq<string>, n: nat, slug: string)
      requires n <= |ds| && forall i :: 0 <= i < n ==> ds[i] != slug
      ensures Holders(ds, n, slug) == []
    {
      if n > 0 {
        NoHolderYet(ds, n - 1, slug);
      }
    }

    lemma HoldersStep(ds: seq<string>, n: nat, slugs: set<string>)
      requires n < |ds|
      ensures forall s :: s in slugs ==> Holders(ds, n + 1, s) == Holders(ds, n, s) + if ds[n] == s then [n] else []
    {
    }

    /** Pass 1: rebuild the slugs of the listed temples from their names. */
    method RepairFormats(order: seq<nat>, slugMap: map<string, seq<nat>>, stored: seq<string>)
      returns (w: map<string, seq<nat>>)
      requires |stored| == |temples| && forall i :: i in order ==> i < |temples|
      modifies this
      ensures |temples| == |old(temples)|
      ensures WithDomains(old(temples), DomainsOf(temples)) == temples
      ensures Work(DomainsOf(temples), w.Keys)
           == AssignAll(stored, Work(DomainsOf(old(temples)), slugMap.Keys), FormatJobs(old(temples), order))
    {
      hide NewSlug, Taken, Fresh, Slugify;
      ghost var ts := temples;
      ghost var jobs := FormatJobs(ts, order);
      ghost var start := Work(DomainsOf(ts), slugMap.Keys);
      w := slugMap;
      assert jobs[..0] == [];
      for n := 0 to |order|
        invariant |temples| == |ts| && WithDomains(ts, DomainsOf(temples)) == temples
        invariant Work(DomainsOf(temples), w.Keys) == AssignAll(stored, start, jobs[..n])
      {
        AssignNext(stored, start, jobs, n);
        assert order[n] in order;
        var i := order[n];
        var temple := temples[i];
        assert temple.name == ts[i].name && temple.idPrefix == ts[i].idPrefix;
        var newSlug := Slugify(temple.name);
        if newSlug == "" {
          newSlug := "temple-" + temple.idPrefix;
        }
        assert newSlug == jobs[n].base && jobs[n].index == i;
        newSlug := FindFresh(newSlug, 0, Taken(stored, i, w.Keys));
        NewSlugIs(stored, w.Keys, jobs[n]);
        Rename(ts, i, newSlug);
        w := w[newSlug := [i]];
      }
      assert jobs[..|order|] == jobs;
    }

    /** Store one new domain. */
    method Rename(ghost ts: seq<Temple>, i: nat, slug: string)
      requires i < |temples| == |ts| && WithDomains(ts, DomainsOf(temples)) == temples
      modifies this
      ensures |temples| == |ts| && WithDomains(ts, DomainsOf(temples)) == temples
      ensures DomainsOf(temples) == DomainsOf(old(temples))[i := slug]
    {
      temples := temples[i := temples[i].(domain := slug)];
    }

    /** Pass 2, one slug: number all holders but the first. */
    method RenumberHolders(slug: string, holders: seq<nat>, slugMap: map<string, seq<nat>>, stored: seq<string>,
                           ghost ts: seq<Temple>)
      returns (w: map<string, seq<nat>>)
      requires |stored| == |temples| == |ts| && WithDomains(ts, DomainsOf(temples)) == temples
      requires forall i :: i in holders ==> i < |temples|
      modifies this
      ensures |temples| == |ts| && WithDomains(ts, DomainsOf(temples)) == temples
      ensures forall n :: 0 <= n < |SlugJobs(holders, slug)| ==> SlugJobs(holders, slug)[n].index < |ts|
      ensures Work(DomainsOf(temples), w.Keys)
           == AssignAll(stored, Work(DomainsOf(old(temples)), slugMap.Keys), SlugJobs(holders, slug))
    {
      hide NewSlug, Taken, Fresh;
      ghost var jobs := SlugJobs(holders, slug);
      ghost var start := Work(DomainsOf(temples), slugMap.Keys);
      forall n | 0 <= n < |jobs| ensures jobs[n].index < |ts| {
        assert holders[n + 1] in holders;
      }
      w := slugMap;
      assert jobs[..0] == [];
      if |holders| > 1 {
        for i := 1 to |holders|
          invariant |temples| == |ts| && WithDomains(ts, DomainsOf(temples)) == temples
          invariant Work(DomainsOf(temples), w.Keys) == AssignAll(stored, start, jobs[..i - 1])
        {
          AssignNext(stored, start, jobs, i - 1);
          var temple := holders[i];
          assert jobs[i - 1] == Job(temple, slug, i);
          var newSlug := FindFresh(slug, i, Taken(stored, temple, w.Keys));
          NewSlugIs(stored, w.Keys, jobs[i - 1]);
          Rename(ts, temple, newSlug);
          w := w[newSlug := [temple]];
        }
      }
      assert jobs[..|jobs|] == jobs;
    }

    /** Pass 2: every slug of the map, in key order. */
    method RenumberDuplicates(slugOrder: seq<string>, duplicates: map<string, seq<nat>>, slugMap: map<string, seq<nat>>,
                              stored: seq<string>, ghost ts: seq<Temple>)
      returns (w: map<string, seq<nat>>)
      requires |stored| == |temples| == |ts| && WithDomains(ts, DomainsOf(temples)) == temples
      requires forall s :: s in slugOrder ==> s in duplicates && duplicates[s] == Holders(stored, |stored|, s)
      modifies this
      ensures |temples| == |ts| && WithDomains(ts, DomainsOf(temples)) == temples
      ensures forall n :: 0 <= n < |DuplicateJobs(stored, slugOrder)| ==>
                DuplicateJobs(stored, slugOrder)[n].index < |ts|
      ensures Work(DomainsOf(temples), w.Keys)
           == AssignAll(stored, Work(DomainsOf(old(temples)), slugMap.Keys), DuplicateJobs(stored, slugOrder))
    {
      hide Holders, AssignAll, DuplicateJobs, SlugJobs, DomainsOf, WithDomains;
      ghost var start := Work(DomainsOf(temples), slugMap.Keys);
      w := slugMap;
      DuplicateJobIndices(stored, slugOrder);
      NothingToAssign(stored, start);
      assert slugOrder[..0] == [];
      for m := 0 to |slugOrder|
        invariant |temples| == |ts| && WithDomains(ts, DomainsOf(temples)) == temples
        invariant forall n :: 0 <= n < |DuplicateJobs(stored, slugOrder[..m])|
                    ==> DuplicateJobs(stored, slugOrder[..m])[n].index < |ts|
        invariant Work(DomainsOf(temples), w.Keys) == AssignAll(stored, start, DuplicateJobs(stored, slugOrder[..m]))
      {
        var slug := slugOrder[m];
        DuplicateJobsNext(stored, slugOrder, m);
        DuplicateJobIndices(stored, slugOrder[..m + 1]);
        SlugJobIndices(stored, slug);
        HoldersContents(stored, slug);
        AssignAllConcat(stored, start, DuplicateJobs(stored, slugOrder[..m]), SlugJobs(duplicates[slug], slug));
        w := RenumberHolders(slug, duplicates[slug], w, stored, ts);
      }
      assert slugOrder[..|slugOrder|] == slugOrder;
    }

    /** The whole run. */
    method Repair() returns (anyChanges: bool)
      modifies this
      ensures temples == Repaired(old(temples))
      ensures anyChanges <==> Jobs(old(temples)) != []
    {
      hide Missing, Invalid, Holders, SlugOrder, AssignAll, DuplicateJobs, FormatJobs, DomainsOf, WithDomains;
      ghost var ts := temples;
      var stored := DomainsOf(temples);
      var missing, invalid, slugOrder, slugMap := Classify();
      var duplicates := slugMap;
      SameDomains(ts);
      JobIndices(ts);
      assert RepairOrder(stored) == missing + invalid;
      assert slugMap.Keys == StartOf(stored).keys;
      slugMap := RepairFormats(missing + invalid, slugMap, stored);
      slugMap := RenumberDuplicates(slugOrder, duplicates, slugMap, stored, ts);
      AssignAllConcat(stored, StartOf(stored), FormatJobs(ts, RepairOrder(stored)), DuplicateJobs(stored, slugOrder));
      anyChanges := |missing + invalid| > 0 || exists s :: s in duplicates && |duplicates[s]| > 1;
      SomeDuplicate(stored, slugOrder);
    }

    lemma SameDomains(ts: seq<Temple>)
      ensures WithDomains(ts, DomainsOf(ts)) == ts
    {
    }

    lemma NothingToAssign(stored: seq<string>, w: Work)
      ensures AssignAll(stored, w, []) == w && DuplicateJobs(stored, []) == []
    {
    }

    lemma NoDuplicates(ds: seq<string>)
      ensures DuplicateJobs(ds, []) == []
    {
    }

    lemma LastDuplicate(ds: seq<string>, slugs: seq<string>)
      requires slugs != []
      ensures var m := |slugs| - 1;
        DuplicateJobs(ds, slugs) == [] <==> DuplicateJobs(ds, slugs[..m]) == [] && |Holders(ds, |ds|, slugs[m])| <= 1
    {
    }

    lemma {:induction false} SomeDuplicate(ds: seq<string>, slugs: seq<string>)
      ensures DuplicateJobs(ds, slugs) != [] <==> exists s :: s in slugs && |Holders(ds, |ds|, s)| > 1
    {
      hide Holders, DuplicateJobs;
      if slugs == [] {
        NoDuplicates(ds);
      } else {
        var m := |slugs| - 1;
        var front := slugs[..m];
        SomeDuplicate(ds, front);
        LastDuplicate(ds, slugs);
        assert slugs == front + [slugs[m]];
        if s :| s in slugs && |Holders(ds, |ds|, s)| > 1 {
          assert s in front || s == slugs[m];
        }
        assert forall s :: s in front ==> s in slugs;
      }
    }
  }
}
