/** The filter, sort and status helpers of the front end (src/lib/jobUtils.ts). */
module JobUtils {
  import opened Strings
  import opened JobModel
  import opened Salary
  import opened JobSort

  // ---- filterJobs ----

  /** The search term occurs, case-insensitively, in the title, company, description or a requirement. */
  predicate MatchesSearch(searchTerm: string, job: Job) {
    var t := Lower(searchTerm);
    searchTerm == ""
    || Contains(Lower(job.title), t)
    || Contains(Lower(job.company), t)
    || Contains(Lower(job.description), t)
    || exists k :: 0 <= k < |job.requirements| && Contains(Lower(job.requirements[k]), t)
  }

  /** 'all', 'remote', 'nashville' and 'both'; every other value matches nothing. */
  predicate MatchesLocation(location: string, job: Job) {
    var nashville := Contains(Lower(job.location), "nashville");
    location == "all"
    || (location == "remote" && job.isRemote)
    || (location == "nashville" && nashville)
    || (location == "both" && (job.isRemote || nashville))
  }

  /** The job's salary range [min, max] of its numbers overlaps [minSalary, maxSalary]. */
  predicate MatchesSalary(minSalary: int, maxSalary: int, job: Job) {
    MaxSalary(job.salary) >= minSalary && MinSalary(job.salary) <= maxSalary
  }

  /** No listed type, or some listed type is one of the job's tags. */
  predicate MatchesTypes(jobTypes: seq<string>, job: Job) {
    jobTypes == [] || exists k :: 0 <= k < |jobTypes| && jobTypes[k] in job.tags
  }

  datatype Criteria = Criteria(searchTerm: string, location: string, minSalary: int, maxSalary: int, jobTypes: seq<string>)

  predicate Matches(c: Criteria, job: Job) {
    MatchesSearch(c.searchTerm, job) && MatchesLocation(c.location, job)
    && MatchesSalary(c.minSalary, c.maxSalary, job) && MatchesTypes(c.jobTypes, job)
  }

  /** `jobs.filter(...)`: the matching jobs, in input order. */
  function Filter(c: Criteria, jobs: seq<Job>): (r: seq<Job>)
    ensures |r| <= |jobs|
  {
    if jobs == [] then []
    else (if Matches(c, jobs[0]) then [jobs[0]] else []) + Filter(c, jobs[1..])
  }

  /** `filterJobs`: the matching jobs, sorted stably by the named key; an unknown key keeps the
      filtered order. */
  function FilterJobs(jobs: seq<Job>, searchTerm: string, location: string, minSalary: int, maxSalary: int,
                      jobTypes: seq<string>, sortBy: string): (r: seq<Job>)
    ensures |r| <= |jobs|
  {
    var filtered := Filter(Criteria(searchTerm, location, minSalary, maxSalary, jobTypes), jobs);
    match ParseSortKey(sortBy)
    case Some(k) => SortPermutation(k, filtered); Sort(k, filtered)
    case None => filtered
  }

  lemma {:induction false} FilterContents(c: Criteria, jobs: seq<Job>)
    ensures forall x :: x in Filter(c, jobs) <==> x in jobs && Matches(c, x)
    ensures multiset(Filter(c, jobs)) <= multiset(jobs)
  {
    if jobs != [] {
      FilterContents(c, jobs[1..]);
      assert jobs == [jobs[0]] + jobs[1..];
    }
  }

  lemma {:induction false} FilterAllMatching(c: Criteria, jobs: seq<Job>)
    requires forall k :: 0 <= k < |jobs| ==> Matches(c, jobs[k])
    ensures Filter(c, jobs) == jobs
  {
    if jobs != [] {
      FilterAllMatching(c, jobs[1..]);
      assert jobs == [jobs[0]] + jobs[1..];
    }
  }

  /** Every returned job is an input job that passes all four tests, every such input job is
      returned, and no job is returned more often than it occurs in the input. */
  lemma FilterJobsContents(jobs: seq<Job>, searchTerm: string, location: string, minSalary: int, maxSalary: int,
                           jobTypes: seq<string>, sortBy: string)
    ensures var c := Criteria(searchTerm, location, minSalary, maxSalary, jobTypes);
      var r := FilterJobs(jobs, searchTerm, location, minSalary, maxSalary, jobTypes, sortBy);
      && (forall x :: x in r <==> x in jobs && Matches(c, x))
      && multiset(r) == multiset(Filter(c, jobs))
      && multiset(r) <= multiset(jobs)
  {
    var c := Criteria(searchTerm, location, minSalary, maxSalary, jobTypes);
    var f := Filter(c, jobs);
    var r := FilterJobs(jobs, searchTerm, location, minSalary, maxSalary, jobTypes, sortBy);
    FilterContents(c, jobs);
    if ParseSortKey(sortBy).Some? {
      SortPermutation(ParseSortKey(sortBy).value, f);
    }
    assert multiset(r) == multiset(f);
    forall x ensures x in r <==> x in f {
      assert x in r <==> x in multiset(r);
      assert x in f <==> x in multiset(f);
    }
  }

  /** Location 'remote' returns only remote jobs, whatever the other criteria. */
  lemma RemoteOnlyRemote(jobs: seq<Job>, searchTerm: string, minSalary: int, maxSalary: int,
                         jobTypes: seq<string>, sortBy: string)
    ensures forall x :: x in FilterJobs(jobs, searchTerm, "remote", minSalary, maxSalary, jobTypes, sortBy) ==> x.isRemote
  {
    FilterJobsContents(jobs, searchTerm, "remote", minSalary, maxSalary, jobTypes, sortBy);
  }

  /** A location value other than 'all', 'remote', 'nashville' and 'both' returns nothing. */
  lemma UnknownLocationMatchesNothing(jobs: seq<Job>, searchTerm: string, location: string, minSalary: int,
                                      maxSalary: int, jobTypes: seq<string>, sortBy: string)
    ensures location !in {"all", "remote", "nashville", "both"} ==>
      FilterJobs(jobs, searchTerm, location, minSalary, maxSalary, jobTypes, sortBy) == []
  {
    var r := FilterJobs(jobs, searchTerm, location, minSalary, maxSalary, jobTypes, sortBy);
    FilterJobsContents(jobs, searchTerm, location, minSalary, maxSalary, jobTypes, sortBy);
    if r != [] {
      assert r[0] in r;
      assert MatchesLocation(location, r[0]);
    }
  }

  /** A known sort key orders the result, ties keep their filtered order, and an unknown key
      leaves the filtered order as it is. */
  lemma FilterJobsOrder(jobs: seq<Job>, searchTerm: string, location: string, minSalary: int, maxSalary: int,
                        jobTypes: seq<string>, sortBy: string, e: Job)
    ensures var filtered := Filter(Criteria(searchTerm, location, minSalary, maxSalary, jobTypes), jobs);
      var r := FilterJobs(jobs, searchTerm, location, minSalary, maxSalary, jobTypes, sortBy);
      match ParseSortKey(sortBy)
      case Some(k) => Sorted(k, r) && TiedWith(k, r, e) == TiedWith(k, filtered, e)
      case None => r == filtered
  {
    var filtered := Filter(Criteria(searchTerm, location, minSalary, maxSalary, jobTypes), jobs);
    match ParseSortKey(sortBy)
    case Some(k) =>
      SortSorted(k, filtered);
      SortStable(k, filtered, e);
    case None =>
  }

  /** Filtering again with the same arguments changes nothing. */
  lemma FilterJobsIdempotent(jobs: seq<Job>, searchTerm: string, location: string, minSalary: int, maxSalary: int,
                             jobTypes: seq<string>, sortBy: string)
    ensures var once := FilterJobs(jobs, searchTerm, location, minSalary, maxSalary, jobTypes, sortBy);
      FilterJobs(once, searchTerm, location, minSalary, maxSalary, jobTypes, sortBy) == once
  {
    var c := Criteria(searchTerm, location, minSalary, maxSalary, jobTypes);
    var once := FilterJobs(jobs, searchTerm, location, minSalary, maxSalary, jobTypes, sortBy);
    FilterJobsContents(jobs, searchTerm, location, minSalary, maxSalary, jobTypes, sortBy);
    assert forall k :: 0 <= k < |once| ==> once[k] in once;
    FilterAllMatching(c, once);
    match ParseSortKey(sortBy)
    case Some(k) =>
      SortSorted(k, Filter(c, jobs));
      SortOfSorted(k, once);
    case None =>
  }

  /** With an empty search, location 'all', no type constraint and a band that contains every
      job's salary numbers, nothing is filtered out. */
  lemma OpenCriteriaKeepEverything(jobs: seq<Job>, minSalary: int, maxSalary: int)
    requires forall k :: 0 <= k < |jobs| ==> minSalary <= MaxSalary(jobs[k].salary) && MinSalary(jobs[k].salary) <= maxSalary
    ensures Filter(Criteria("", "all", minSalary, maxSalary, []), jobs) == jobs
  {
    var c := Criteria("", "all", minSalary, maxSalary, []);
    forall k | 0 <= k < |jobs| ensures Matches(c, jobs[k]) {
      assert MatchesSearch("", jobs[k]);
      assert MatchesLocation("all", jobs[k]);
      assert MatchesTypes([], jobs[k]);
    }
    FilterAllMatching(c, jobs);
  }

  /** A salary text without digits reads as 0, so it passes exactly the bands that contain 0. */
  lemma NoDigitSalaryBand(minSalary: int, maxSalary: int, job: Job)
    requires forall i :: 0 <= i < |job.salary| ==> !IsDigit(job.salary[i])
    ensures MatchesSalary(minSalary, maxSalary, job) <==> minSalary <= 0 <= maxSalary
  {
    NoDigitsReadsAsZero(job.salary);
  }

  // ---- updateJobStatus ----

  /** `updateJobStatus`: every job with id `jobId` gets `status`; nothing else changes. */
  function UpdateJobStatus(jobs: seq<Job>, jobId: string, status: Status): (r: seq<Job>)
    ensures |r| == |jobs|
    ensures forall i :: 0 <= i < |jobs| && jobs[i].id == jobId ==> r[i] == jobs[i].(applicationStatus := status)
    ensures forall i :: 0 <= i < |jobs| && jobs[i].id != jobId ==> r[i] == jobs[i]
  {
    if jobs == [] then []
    else
      var head := if jobs[0].id == jobId then jobs[0].(applicationStatus := status) else jobs[0];
      [head] + UpdateJobStatus(jobs[1..], jobId, status)
  }

  /** Applying the same update twice is the same as applying it once. */
  lemma UpdateJobStatusIdempotent(jobs: seq<Job>, jobId: string, status: Status)
    ensures UpdateJobStatus(UpdateJobStatus(jobs, jobId, status), jobId, status) == UpdateJobStatus(jobs, jobId, status)
  {
  }

  /** An id that no job has leaves the list as it is. */
  lemma UpdateUnknownId(jobs: seq<Job>, jobId: string, status: Status)
    requires forall i :: 0 <= i < |jobs| ==> jobs[i].id != jobId
    ensures UpdateJobStatus(jobs, jobId, status) == jobs
  {
  }

  // ---- getJobStats ----

  datatype JobStats = JobStats(
    total: nat, notApplied: nat, applied: nat, interviews: nat, rejected: nat,
    remote: nat, local: nat,
    /** None where the source divides by an empty length (NaN). */
    averageRelevance: Option<int>)

  function CountStatus(jobs: seq<Job>, st: Status): (n: nat)
    ensures n <= |jobs|
  {
    if jobs == [] then 0 else (if jobs[0].applicationStatus == st then 1 else 0) + CountStatus(jobs[1..], st)
  }

  function CountRemote(jobs: seq<Job>, remote: bool): (n: nat)
    ensures n <= |jobs|
  {
    if jobs == [] then 0 else (if jobs[0].isRemote == remote then 1 else 0) + CountRemote(jobs[1..], remote)
  }

  function SumScores(jobs: seq<Job>): int {
    if jobs == [] then 0 else jobs[0].relevanceScore + SumScores(jobs[1..])
  }

  /** `Math.round(sum / n)` for n > 0: floor(sum / n + 1/2). */
  function RoundedMean(sum: int, n: nat): int
    requires n > 0
  {
    (2 * sum + n) / (2 * n)
  }

  function GetJobStats(jobs: seq<Job>): (st: JobStats)
    ensures st.total == |jobs|
    ensures st.averageRelevance == None <==> jobs == []
  {
    JobStats(
      |jobs|,
      CountStatus(jobs, NotApplied), CountStatus(jobs, Applied), CountStatus(jobs, Interview), CountStatus(jobs, Rejected),
      CountRemote(jobs, true), CountRemote(jobs, false),
      if jobs == [] then None else Some(RoundedMean(SumScores(jobs), |jobs|)))
  }

  lemma {:induction false} StatusCountsPartition(jobs: seq<Job>)
    ensures CountStatus(jobs, NotApplied) + CountStatus(jobs, Applied) + CountStatus(jobs, Interview)
      + CountStatus(jobs, Rejected) == |jobs|
  {
    if jobs != [] { StatusCountsPartition(jobs[1..]); }
  }

  lemma {:induction false} RemoteCountsPartition(jobs: seq<Job>)
    ensures CountRemote(jobs, true) + CountRemote(jobs, false) == |jobs|
  {
    if jobs != [] { RemoteCountsPartition(jobs[1..]); }
  }

  /** Every job is counted once by status and once by remoteness. */
  lemma StatsPartition(jobs: seq<Job>)
    ensures var st := GetJobStats(jobs);
      st.notApplied + st.applied + st.interviews + st.rejected == st.total
      && st.remote + st.local == st.total
  {
    StatusCountsPartition(jobs);
    RemoteCountsPartition(jobs);
  }

  lemma {:induction false} SumScoresBounds(jobs: seq<Job>)
    requires forall k :: 0 <= k < |jobs| ==> 0 <= jobs[k].relevanceScore <= 100
    ensures 0 <= SumScores(jobs) <= 100 * |jobs|
  {
    if jobs != [] { SumScoresBounds(jobs[1..]); }
  }

  /** A numerator below `m * d` has a quotient below `m`; bounds the rounded average. */
  lemma QuotientBelow(n: int, d: int, m: int)
    requires d > 0 && n < m * d
    ensures n / d < m
  {
    var q := n / d;
    if q >= m {
      MulMonotoneRight(m, q, d);
      assert false;
    }
  }

  /** Multiplying by a positive factor keeps the order; the step QuotientBelow needs. */
  lemma MulMonotoneRight(x: int, y: int, d: int)
    requires x <= y && d > 0
    ensures x * d <= y * d
  {
  }

  /** When every score lies in [0,100], so does the rounded average. */
  lemma AverageWithinScores(jobs: seq<Job>)
    requires jobs != []
    requires forall k :: 0 <= k < |jobs| ==> 0 <= jobs[k].relevanceScore <= 100
    ensures var avg := GetJobStats(jobs).averageRelevance; avg.Some? && 0 <= avg.value <= 100
  {
    SumScoresBounds(jobs);
    RoundedMeanWithin(SumScores(jobs), |jobs|);
  }

  /** The rounded mean of a sum of `n` values in [0,100] is in [0,100]. */
  lemma RoundedMeanWithin(sum: int, n: nat)
    requires n > 0 && 0 <= sum <= 100 * n
    ensures 0 <= RoundedMean(sum, n) <= 100
  {
    assert 2 * sum + n < 101 * (2 * n);
    QuotientBelow(2 * sum + n, 2 * n, 101);
  }

  lemma {:induction false} UpdateKeepsRemoteCounts(jobs: seq<Job>, jobId: string, status: Status, remote: bool)
    ensures CountRemote(UpdateJobStatus(jobs, jobId, status), remote) == CountRemote(jobs, remote)
    ensures SumScores(UpdateJobStatus(jobs, jobId, status)) == SumScores(jobs)
  {
    if jobs != [] {
      UpdateKeepsRemoteCounts(jobs[1..], jobId, status, remote);
      assert UpdateJobStatus(jobs, jobId, status)[1..] == UpdateJobStatus(jobs[1..], jobId, status);
    }
  }

  /** A status change moves jobs between status counts only: the total, the remote/local split
      and the average are unchanged. */
  lemma UpdateKeepsStats(jobs: seq<Job>, jobId: string, status: Status)
    ensures var before, after := GetJobStats(jobs), GetJobStats(UpdateJobStatus(jobs, jobId, status));
      after.total == before.total && after.remote == before.remote && after.local == before.local
      && after.averageRelevance == before.averageRelevance
  {
    UpdateKeepsRemoteCounts(jobs, jobId, status, true);
    UpdateKeepsRemoteCounts(jobs, jobId, status, false);
  }

  // ---- relevance bands ----

  function RelevanceColor(score: int): (c: string)
    ensures c == "text-green-400" <==> score >= 90
    ensures c == "text-yellow-400" <==> 80 <= score < 90
    ensures c == "text-orange-400" <==> 70 <= score < 80
    ensures c == "text-red-400" <==> score < 70
  {
    if score >= 90 then "text-green-400"
    else if score >= 80 then "text-yellow-400"
    else if score >= 70 then "text-orange-400"
    else "text-red-400"
  }

  function RelevanceLabel(score: int): (l: string)
    ensures l == "Excellent Match" <==> score >= 90
    ensures l == "Good Match" <==> 80 <= score < 90
    ensures l == "Fair Match" <==> 70 <= score < 80
    ensures l == "Poor Match" <==> score < 70
  {
    if score >= 90 then "Excellent Match"
    else if score >= 80 then "Good Match"
    else if score >= 70 then "Fair Match"
    else "Poor Match"
  }

  /** The two mappers share their thresholds: two scores get the same colour exactly when they
      get the same label. */
  lemma ColorAndLabelAgree(a: int, b: int)
    ensures RelevanceColor(a) == RelevanceColor(b) <==> RelevanceLabel(a) == RelevanceLabel(b)
  {
  }

  /** Rank of a label, best first: a higher score never gets a worse label. */
  function LabelRank(l: string): nat {
    if l == "Excellent Match" then 3 else if l == "Good Match" then 2 else if l == "Fair Match" then 1 else 0
  }

  lemma LabelMonotone(a: int, b: int)
    requires a <= b
    ensures LabelRank(RelevanceLabel(a)) <= LabelRank(RelevanceLabel(b))
  {
  }
}
