/** The client of the Python backend (src/lib/jobApiService.ts): the health probe, the search
    call with its defaults, re-scoring and error shape, and the fallback to local data. The
    network is abstract: each call's outcome is a parameter, and so is the local dataset. */
module JobApiService {
  import opened Strings
  import opened JobModel
  import opened Salary
  import opened JobSort
  import opened JobUtils
  import opened AiScoring
  import opened JsArray

  /** `JobSearchParams`: every key is optional. */
  datatype SearchParams = SearchParams(search: Option<string>, location: Option<string>, limit: Option<int>)

  /** `JobApiResponse`. */
  datatype ApiResponse = ApiResponse(jobs: seq<Job>, total: int, message: Option<string>, error: Option<string>)

  /** What the backend's body turned out to be: JSON of the response shape, or text that
      `response.json()` rejects with the given message. */
  datatype Body = Json(data: ApiResponse) | Malformed(reason: string)

  /** The outcome of one request: an answer with an HTTP status, or a thrown failure (network
      error, timeout abort). `thrown` is the message of a thrown `Error`, None for any other value. */
  datatype HttpOutcome = Answered(status: nat, body: Body) | Failed(thrown: Option<string>)

  /** The query string `searchJobs` sends. */
  datatype Query = Query(search: string, location: string, limit: int)

  /** `v || d` on an optional string: undefined and '' are falsy. */
  function OrString(v: Option<string>, d: string): (r: string)
    ensures r == (if v == None || v == Some("") then d else v.value)
  {
    match v
    case None => d
    case Some(s) => if s == "" then d else s
  }

  /** `v || d` on an optional number: undefined and 0 are falsy. */
  function OrInt(v: Option<int>, d: int): (r: int)
    ensures r == (if v == None || v == Some(0) then d else v.value)
  {
    match v
    case None => d
    case Some(n) => if n == 0 then d else n
  }

  /** The query `searchJobs` builds: every field is truthy, whatever the caller passed. */
  function SearchQuery(params: SearchParams): (q: Query)
    ensures q.search != "" && q.location != "" && q.limit != 0
  {
    Query(OrString(params.search, "frontend developer"), OrString(params.location, "nashville"), OrInt(params.limit, 20))
  }

  /** `response.ok`: a status in 200..299. */
  predicate Ok(status: nat) {
    200 <= status <= 299
  }

  /** The catch branch of `searchJobs`: no jobs, total 0 and the error text. */
  function ErrorResponse(message: string): (r: ApiResponse)
    ensures r.jobs == [] && r.total == 0 && r.error == Some(message) && r.message == None
  {
    ApiResponse([], 0, None, Some(message))
  }

  /** Each job with its relevance score recomputed; every other field is kept. */
  function Rescore(jobs: seq<Job>, now: int): (r: seq<Job>)
    ensures |r| == |jobs|
    ensures forall i :: 0 <= i < |jobs| ==> r[i] == jobs[i].(relevanceScore := RelevanceScore(jobs[i], now))
  {
    if jobs == [] then [] else [jobs[0].(relevanceScore := RelevanceScore(jobs[0], now))] + Rescore(jobs[1..], now)
  }

  /** `searchJobs`, given the backend's answer to `SearchQuery(params)` at time `now`. */
  function SearchJobs(params: SearchParams, outcome: HttpOutcome, now: int): (r: ApiResponse)
    ensures r.error == None || r.jobs == [] || (outcome.Answered? && outcome.body.Json? && r.error == outcome.body.data.error)
  {
    match outcome
    case Failed(thrown) => ErrorResponse(if thrown.Some? then thrown.value else "Failed to fetch jobs")
    case Answered(status, body) =>
      if !Ok(status) then ErrorResponse("HTTP error! status: " + NatToString(status))
      else match body
        case Malformed(reason) => ErrorResponse(reason)
        case Json(data) =>
          if |data.jobs| > 0 then data.(jobs := Sort(ByRelevance, Rescore(data.jobs, now))) else data
  }

  /** `checkBackendHealth`: true exactly for an answer with an ok status. */
  function CheckBackendHealth(probe: HttpOutcome): (healthy: bool)
    ensures healthy <==> probe.Answered? && Ok(probe.status)
  {
    match probe
    case Failed(_) => false
    case Answered(status, _) => Ok(status)
  }

  const FallbackMessage: string := "Using fallback data - backend unavailable"

  /** The local-data answer: the first `limit || 20` jobs of the filtered dataset, the full
      filtered count, the fallback message and no error. */
  function Fallback(params: SearchParams, localJobs: seq<Job>): (r: ApiResponse)
    ensures r.message == Some(FallbackMessage) && r.error == None
  {
    var filtered := FilterJobs(localJobs, OrString(params.search, ""), OrString(params.location, "all"), 0, 200000, [], "relevance");
    ApiResponse(Slice(filtered, 0, OrInt(params.limit, 20)), |filtered|, Some(FallbackMessage), None)
  }

  /** `searchJobsWithFallback`: probe, then search only if healthy, and fall back to local data
      when the probe fails or the search gives no jobs. */
  function SearchJobsWithFallback(params: SearchParams, probe: HttpOutcome, search: HttpOutcome,
                                  localJobs: seq<Job>, now: int): (r: ApiResponse)
    ensures r == SearchJobs(params, search, now) || r == Fallback(params, localJobs)
    ensures |r.jobs| > 0 || r == Fallback(params, localJobs)
  {
    if CheckBackendHealth(probe) && |SearchJobs(params, search, now).jobs| > 0 then SearchJobs(params, search, now)
    else Fallback(params, localJobs)
  }

  // ---- Properties ----

  /** The defaults of the query: a falsy search, location or limit is replaced. */
  lemma QueryDefaults(params: SearchParams)
    ensures params.search == None || params.search == Some("") ==> SearchQuery(params).search == "frontend developer"
    ensures params.location == None || params.location == Some("") ==> SearchQuery(params).location == "nashville"
    ensures params.limit == None || params.limit == Some(0) ==> SearchQuery(params).limit == 20
    ensures params.limit.Some? && params.limit.value != 0 ==> SearchQuery(params).limit == params.limit.value
  {
  }

  /** A thrown failure, a non-ok status or an unreadable body all give the error shape. */
  lemma SearchFailureShape(params: SearchParams, outcome: HttpOutcome, now: int)
    requires outcome.Failed? || !Ok(outcome.status) || outcome.body.Malformed?
    ensures var r := SearchJobs(params, outcome, now);
      r.jobs == [] && r.total == 0 && r.error.Some? && r.message == None
    ensures outcome.Answered? && !Ok(outcome.status) ==>
      SearchJobs(params, outcome, now).error == Some("HTTP error! status: " + NatToString(outcome.status))
    ensures outcome == Failed(None) ==> SearchJobs(params, outcome, now).error == Some("Failed to fetch jobs")
    ensures outcome.Failed? && outcome.thrown.Some? ==> SearchJobs(params, outcome, now).error == outcome.thrown
  {
  }

  /** On success the jobs come back re-scored and sorted by relevance (see `RelevanceSortFacts`
      for what that sort promises); the other response fields are the backend's. */
  lemma SuccessfulSearch(params: SearchParams, status: nat, data: ApiResponse, now: int)
    requires Ok(status) && |data.jobs| > 0
    ensures var r := SearchJobs(params, Answered(status, Json(data)), now);
      && r.jobs == Sort(ByRelevance, Rescore(data.jobs, now))
      && r.total == data.total && r.message == data.message && r.error == data.error
  {
  }

  /** Sorting re-scored jobs by relevance gives a permutation of them, highest score first, with
      equal scores in the backend's order and every score in [0,100]. */
  lemma RelevanceSortFacts(jobs: seq<Job>, now: int, e: Job)
    ensures var rescored := Rescore(jobs, now); var r := Sort(ByRelevance, rescored);
      && multiset(r) == multiset(rescored)
      && (forall i, j :: 0 <= i < j < |r| ==> r[i].relevanceScore >= r[j].relevanceScore)
      && TiedWith(ByRelevance, r, e) == TiedWith(ByRelevance, rescored, e)
      && (forall x :: x in r ==> 0 <= x.relevanceScore <= 100)
  {
    var rescored := Rescore(jobs, now);
    var r := Sort(ByRelevance, rescored);
    SortPermutation(ByRelevance, rescored);
    SortSorted(ByRelevance, rescored);
    SortStable(ByRelevance, rescored, e);
    ScoresDescending(r);
    RescoreInRange(jobs, now);
    InRangeKept(rescored, r);
  }

  lemma ScoresDescending(r: seq<Job>)
    requires Sorted(ByRelevance, r)
    ensures forall i, j :: 0 <= i < j < |r| ==> r[i].relevanceScore >= r[j].relevanceScore
  {
    forall i, j | 0 <= i < j < |r| ensures r[i].relevanceScore >= r[j].relevanceScore {
      assert !Precedes(ByRelevance, r[j], r[i]);
    }
  }

  lemma InRangeKept(s: seq<Job>, r: seq<Job>)
    requires multiset(r) == multiset(s)
    requires forall x :: x in s ==> 0 <= x.relevanceScore <= 100
    ensures forall x :: x in r ==> 0 <= x.relevanceScore <= 100
  {
    forall x | x in r ensures 0 <= x.relevanceScore <= 100 {
      assert x in multiset(r);
      assert x in multiset(s);
    }
  }

  lemma RescoreInRange(jobs: seq<Job>, now: int)
    ensures forall x :: x in Rescore(jobs, now) ==> 0 <= x.relevanceScore <= 100
  {
    var r := Rescore(jobs, now);
    forall x | x in r ensures 0 <= x.relevanceScore <= 100 {
      var i :| 0 <= i < |r| && r[i] == x;
      RescoredAt(jobs, now, i);
    }
  }

  lemma RescoredAt(jobs: seq<Job>, now: int, i: nat)
    requires i < |jobs|
    ensures 0 <= Rescore(jobs, now)[i].relevanceScore <= 100
  {
    var s := RelevanceScore(jobs[i], now);
    assert Rescore(jobs, now)[i].relevanceScore == s;
  }

  /** An ok answer with an empty job list is returned as the backend sent it. */
  lemma EmptySearchUnchanged(params: SearchParams, status: nat, data: ApiResponse, now: int)
    requires Ok(status) && data.jobs == []
    ensures SearchJobs(params, Answered(status, Json(data)), now) == data
  {
  }

  /** When the probe fails the search outcome plays no part: the search is never made. */
  lemma ProbeFailureSkipsSearch(params: SearchParams, probe: HttpOutcome, s1: HttpOutcome, s2: HttpOutcome,
                                localJobs: seq<Job>, now: int)
    requires !CheckBackendHealth(probe)
    ensures SearchJobsWithFallback(params, probe, s1, localJobs, now) == SearchJobsWithFallback(params, probe, s2, localJobs, now)
    ensures SearchJobsWithFallback(params, probe, s1, localJobs, now) == Fallback(params, localJobs)
  {
  }

  /** A healthy probe and a search with jobs: that search result, unchanged. Otherwise the fallback. */
  lemma FallbackChoice(params: SearchParams, probe: HttpOutcome, search: HttpOutcome, localJobs: seq<Job>, now: int)
    ensures var r := SearchJobsWithFallback(params, probe, search, localJobs, now);
      if CheckBackendHealth(probe) && |SearchJobs(params, search, now).jobs| > 0 then r == SearchJobs(params, search, now)
      else r == Fallback(params, localJobs)
  {
  }

  /** The fallback pages the relevance-sorted local jobs matching the search and location, over
      the full salary band and with no type constraint; `total` counts all of them. */
  lemma FallbackContents(params: SearchParams, localJobs: seq<Job>)
    ensures var filtered := FilterJobs(localJobs, OrString(params.search, ""), OrString(params.location, "all"), 0, 200000, [], "relevance");
      var r := Fallback(params, localJobs);
      && r.total == |filtered|
      && (OrInt(params.limit, 20) >= 0 ==> r.jobs == filtered[..MinNat(OrInt(params.limit, 20), |filtered|)])
      && |r.jobs| <= |filtered|
      && Sorted(ByRelevance, r.jobs)
  {
    var filtered := FilterJobs(localJobs, OrString(params.search, ""), OrString(params.location, "all"), 0, 200000, [], "relevance");
    var c := Criteria(OrString(params.search, ""), OrString(params.location, "all"), 0, 200000, []);
    SortSorted(ByRelevance, Filter(c, localJobs));
    var r := Fallback(params, localJobs);
    if OrInt(params.limit, 20) >= 0 {
      SlicePrefix(filtered, OrInt(params.limit, 20));
    }
    SortedSlice(ByRelevance, filtered, 0, OrInt(params.limit, 20));
  }

  /** Any slice of a sorted sequence is sorted. */
  lemma SortedSlice(k: SortKey, s: seq<Job>, start: int, end: int)
    requires Sorted(k, s)
    ensures Sorted(k, Slice(s, start, end))
  {
    var from, to := RelativeIndex(start, |s|), RelativeIndex(end, |s|);
    if from < to {
      SortedRun(k, s, from, to);
    }
  }

  lemma SortedRun(k: SortKey, s: seq<Job>, from: nat, to: nat)
    requires Sorted(k, s) && from <= to <= |s|
    ensures Sorted(k, s[from..to])
  {
    var t := s[from..to];
    forall i, j | 0 <= i < j < |t| ensures !Precedes(k, t[j], t[i]) {
      assert t[i] == s[from + i] && t[j] == s[from + j];
    }
  }

  /** The chain reports an error only when an ok backend answer carried one next to its jobs:
      search failures are replaced by the fallback, which has none. */
  lemma ErrorsOnlyFromBackend(params: SearchParams, probe: HttpOutcome, search: HttpOutcome, localJobs: seq<Job>, now: int)
    ensures var r := SearchJobsWithFallback(params, probe, search, localJobs, now);
      r.error.Some? ==>
        (CheckBackendHealth(probe) && search.Answered? && Ok(search.status) && search.body.Json?
         && r.error == search.body.data.error && |search.body.data.jobs| > 0)
  {
  }
}
