/** The client job-list state (src/hooks/useJobs.ts): five state cells that the hook's actions
    update in sequence. The search action receives the search's outcome as a parameter. */
module UseJobs {
  import opened JobModel
  import opened JobUtils
  import opened JobApiService

  /** How the awaited `searchJobs(params)` ended: with a response, or by throwing (`message` is
      that of a thrown `Error`, None for any other value). */
  datatype SearchResult = Returned(response: ApiResponse) | Threw(message: Option<string>)

  /** The record's key count is positive: `Object.keys(params).length > 0`. */
  predicate HasKeys(p: SearchParams) {
    p.search.Some? || p.location.Some? || p.limit.Some?
  }

  /** `if (response.error)`: an error text that is present and non-empty. */
  predicate Truthy(e: Option<string>) {
    e.Some? && e.value != ""
  }

  class JobList {
    var jobs: seq<Job>
    var filteredJobs: seq<Job>
    var loading: bool
    var error: Option<string>
    var lastSearchParams: SearchParams

    /** Every job shown is one of the loaded jobs. */
    ghost predicate Valid()
      reads this
    {
      forall x :: x in filteredJobs ==> x in jobs
    }

    /** The initial state of the hook. */
    constructor()
      ensures Valid()
      ensures jobs == [] && filteredJobs == [] && !loading && error == None
      ensures lastSearchParams == SearchParams(None, None, None)
    {
      jobs, filteredJobs := [], [];
      loading, error := false, None;
      lastSearchParams := SearchParams(None, None, None);
    }

    /** `jobCount`. */
    function JobCount(): (n: nat)
      reads this
      ensures n == |filteredJobs|
    {
      |filteredJobs|
    }

    /** `totalJobs`. */
    function TotalJobs(): (n: nat)
      reads this
      ensures n == |jobs|
    {
      |jobs|
    }

    /** The first two setters of `searchJobsFromAPI`, before the search is awaited. */
    method StartSearch()
      requires Valid()
      modifies this
      ensures Valid()
      ensures loading && error == None
      ensures jobs == old(jobs) && filteredJobs == old(filteredJobs) && lastSearchParams == old(lastSearchParams)
    {
      loading := true;
      error := None;
    }

    /** The rest of `searchJobsFromAPI` once the search has ended: an error (reported or thrown)
        is stored and nothing else changes; a response without one replaces both lists and
        records the parameters. Loading ends either way. */
    method FinishSearch(params: SearchParams, result: SearchResult)
      requires Valid()
      modifies this
      ensures Valid()
      ensures !loading
      ensures result.Returned? && Truthy(result.response.error) ==>
        error == result.response.error
        && jobs == old(jobs) && filteredJobs == old(filteredJobs) && lastSearchParams == old(lastSearchParams)
      ensures result.Returned? && !Truthy(result.response.error) ==>
        jobs == result.response.jobs && filteredJobs == result.response.jobs && lastSearchParams == params
        && error == old(error)
      ensures result.Threw? ==>
        error == Some(if result.message.Some? then result.message.value else "Failed to search jobs")
        && jobs == old(jobs) && filteredJobs == old(filteredJobs) && lastSearchParams == old(lastSearchParams)
    {
      match result {
        case Returned(response) =>
          if Truthy(response.error) {
            error := response.error;
          } else {
            jobs := response.jobs;
            filteredJobs := response.jobs;
            lastSearchParams := params;
          }
        case Threw(message) =>
          error := Some(if message.Some? then message.value else "Failed to search jobs");
      }
      loading := false;
    }

    /** `searchJobsFromAPI(params)`: once it has run, `error` is set exactly when the search
        failed, and loading is over. */
    method SearchJobsFromAPI(params: SearchParams, result: SearchResult)
      requires Valid()
      modifies this
      ensures Valid()
      ensures !loading
      ensures error.Some? <==> (result.Threw? || Truthy(result.response.error))
      ensures result.Returned? && Truthy(result.response.error) ==> error == result.response.error
      ensures result.Threw? ==>
        error == Some(if result.message.Some? then result.message.value else "Failed to search jobs")
      ensures error == None ==> jobs == filteredJobs == result.response.jobs && lastSearchParams == params
      ensures error.Some? ==> jobs == old(jobs) && filteredJobs == old(filteredJobs) && lastSearchParams == old(lastSearchParams)
    {
      StartSearch();
      FinishSearch(params, result);
    }

    /** `filterExistingJobs`: the shown list becomes the filtered loaded list, over the full
        salary band and with no type constraint; nothing else changes. */
    method FilterExistingJobs(searchTerm: string, locationFilter: string, sortBy: string)
      requires Valid()
      modifies this
      ensures Valid()
      ensures filteredJobs == FilterJobs(jobs, searchTerm, locationFilter, 0, 200000, [], sortBy)
      ensures jobs == old(jobs) && loading == old(loading) && error == old(error) && lastSearchParams == old(lastSearchParams)
    {
      filteredJobs := FilterJobs(jobs, searchTerm, locationFilter, 0, 200000, [], sortBy);
      FilterJobsContents(jobs, searchTerm, locationFilter, 0, 200000, [], sortBy);
    }

    /** `handleStatusChange`: the same status update on both lists. */
    method HandleStatusChange(jobId: string, status: Status)
      requires Valid()
      modifies this
      ensures Valid()
      ensures jobs == UpdateJobStatus(old(jobs), jobId, status)
      ensures filteredJobs == UpdateJobStatus(old(filteredJobs), jobId, status)
      ensures loading == old(loading) && error == old(error) && lastSearchParams == old(lastSearchParams)
    {
      UpdatePreservesMembership(jobs, filteredJobs, jobId, status);
      jobs := UpdateJobStatus(jobs, jobId, status);
      filteredJobs := UpdateJobStatus(filteredJobs, jobId, status);
    }

    /** `refreshJobs`: searches again with the last parameters, but only if they have a key. */
    method RefreshJobs(result: SearchResult)
      requires Valid()
      modifies this
      ensures Valid()
      ensures !HasKeys(old(lastSearchParams)) ==>
        jobs == old(jobs) && filteredJobs == old(filteredJobs) && loading == old(loading)
        && error == old(error) && lastSearchParams == old(lastSearchParams)
      ensures HasKeys(old(lastSearchParams)) ==> !loading && (error.Some? <==> (result.Threw? || Truthy(result.response.error)))
      ensures HasKeys(old(lastSearchParams)) && result.Returned? && Truthy(result.response.error) ==>
        error == result.response.error
      ensures HasKeys(old(lastSearchParams)) && result.Threw? ==>
        error == Some(if result.message.Some? then result.message.value else "Failed to search jobs")
      ensures HasKeys(old(lastSearchParams)) && error == None ==>
        jobs == filteredJobs == result.response.jobs
      ensures HasKeys(old(lastSearchParams)) && error.Some? ==>
        jobs == old(jobs) && filteredJobs == old(filteredJobs)
      ensures lastSearchParams == old(lastSearchParams)
    {
      if HasKeys(lastSearchParams) {
        SearchJobsFromAPI(lastSearchParams, result);
      }
    }

    /** `clearError`. */
    method ClearError()
      requires Valid()
      modifies this
      ensures Valid()
      ensures error == None
      ensures jobs == old(jobs) && filteredJobs == old(filteredJobs) && loading == old(loading)
      ensures lastSearchParams == old(lastSearchParams)
    {
      error := None;
    }
  }

  /** Updating both lists the same way keeps every shown job among the loaded ones. */
  lemma UpdatePreservesMembership(all: seq<Job>, shown: seq<Job>, jobId: string, status: Status)
    requires forall x :: x in shown ==> x in all
    ensures forall y :: y in UpdateJobStatus(shown, jobId, status) ==> y in UpdateJobStatus(all, jobId, status)
  {
    var us, ua := UpdateJobStatus(shown, jobId, status), UpdateJobStatus(all, jobId, status);
    forall y | y in us ensures y in ua {
      var i :| 0 <= i < |us| && us[i] == y;
      var x := shown[i];
      assert x in all;
      var j :| 0 <= j < |all| && all[j] == x;
      assert us[i] == if x.id == jobId then x.(applicationStatus := status) else x;
      assert ua[j] == if x.id == jobId then x.(applicationStatus := status) else x;
    }
  }
}
