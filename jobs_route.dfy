/** The local job listing endpoint (`GET` in src/app/api/jobs/route.ts): defaults, a filter over
    the local dataset, then one page of the result. The request is reduced to its query values
    and the response to its JSON body. */
module JobsRoute {
  import opened JobModel
  import opened JobSort
  import opened JobUtils
  import opened JsArray

  /** The query values as `searchParams.get` gives them: None for a missing key. `limit` and
      `offset` are the numbers `parseInt` reads, None when the value is missing or empty. */
  datatype RouteQuery = RouteQuery(
    search: Option<string>, location: Option<string>, sortBy: Option<string>,
    limit: Option<int>, offset: Option<int>)

  datatype PageResponse = PageResponse(jobs: seq<Job>, total: nat, offset: int, limit: int, hasMore: bool)

  /** `get(key) || default` for a text value: a missing or empty value takes the default. */
  function TextOr(v: Option<string>, d: string): (r: string)
    ensures v == None || v == Some("") ==> r == d
    ensures v.Some? && v.value != "" ==> r == v.value
  {
    if v == None || v.value == "" then d else v.value
  }

  /** `parseInt(get(key) || default)`: "0" is a non-empty text, so 0 is kept. */
  function NumberOr(v: Option<int>, d: int): (r: int)
    ensures v == None ==> r == d
    ensures v.Some? ==> r == v.value
  {
    if v == None then d else v.value
  }

  function ListJobs(q: RouteQuery, localJobs: seq<Job>): (r: PageResponse)
    ensures r.limit == NumberOr(q.limit, 20) && r.offset == NumberOr(q.offset, 0)
  {
    var limit := NumberOr(q.limit, 20);
    var offset := NumberOr(q.offset, 0);
    var filtered := Listing(q, localJobs);
    PageResponse(Slice(filtered, offset, offset + limit), |filtered|, offset, limit, offset + limit < |filtered|)
  }

  /** The filtered list a query pages through: fixed salary band 0..200000 and no type constraint. */
  function Listing(q: RouteQuery, localJobs: seq<Job>): seq<Job> {
    FilterJobs(localJobs, TextOr(q.search, ""), TextOr(q.location, "all"), 0, 200000, [], TextOr(q.sortBy, "relevance"))
  }

  /** The listing holds only local jobs, each at most as often as in the dataset, and none of
      the page parameters changes it. */
  lemma ListingFacts(q: RouteQuery, localJobs: seq<Job>, offset: Option<int>, limit: Option<int>)
    ensures var all := Listing(q, localJobs);
      && |all| <= |localJobs|
      && multiset(all) <= multiset(localJobs)
      && Listing(q.(offset := offset, limit := limit), localJobs) == all
  {
    FilterJobsContents(localJobs, TextOr(q.search, ""), TextOr(q.location, "all"), 0, 200000, [], TextOr(q.sortBy, "relevance"));
  }

  /** The page at an explicit offset and limit is the slice of the listing between the offset and
      offset plus limit. */
  lemma PageOfListing(q: RouteQuery, localJobs: seq<Job>, offset: int, limit: int)
    ensures ListJobs(q.(offset := Some(offset), limit := Some(limit)), localJobs).jobs
         == Slice(Listing(q, localJobs), offset, offset + limit)
  {
  }

  /** The defaults: no search, every location, relevance order, twenty jobs from the start. */
  lemma RouteDefaults(localJobs: seq<Job>)
    ensures var r := ListJobs(RouteQuery(None, None, None, None, None), localJobs);
      && r.jobs == Slice(FilterJobs(localJobs, "", "all", 0, 200000, [], "relevance"), 0, 20)
      && r.offset == 0 && r.limit == 20
  {
  }

  /** For a non-negative offset and limit the page is the contiguous run [offset, offset+limit)
      of the listing, cut at its end, so it holds at most `limit` jobs; `total` is the whole
      listing's length whatever the offset and limit, and `hasMore` says that jobs remain after
      the page. */
  lemma PageIsSlice(q: RouteQuery, localJobs: seq<Job>)
    requires NumberOr(q.offset, 0) >= 0 && NumberOr(q.limit, 20) >= 0
    ensures var r := ListJobs(q, localJobs); var all := Listing(q, localJobs);
      var off, lim := NumberOr(q.offset, 0), NumberOr(q.limit, 20);
      && r.jobs == all[MinNat(off, |all|)..MinNat(off + lim, |all|)]
      && |r.jobs| <= lim
      && r.total == |all|
      && (r.hasMore <==> off + lim < |all|)
      && (r.hasMore ==> |r.jobs| == lim)
  {
    var all := Listing(q, localJobs);
    var off, lim := NumberOr(q.offset, 0), NumberOr(q.limit, 20);
    SliceNonNegative(all, off, off + lim);
  }

  /** `total` does not depend on the requested page. */
  lemma TotalIgnoresPaging(q: RouteQuery, offset: Option<int>, limit: Option<int>, localJobs: seq<Job>)
    ensures ListJobs(q, localJobs).total == ListJobs(q.(offset := offset, limit := limit), localJobs).total
  {
  }

  /** Two consecutive pages of the same size cover the double-sized page at the first offset. */
  lemma ConsecutivePages(q: RouteQuery, localJobs: seq<Job>, offset: nat, limit: nat)
    ensures ListJobs(q.(offset := Some(offset), limit := Some(limit)), localJobs).jobs
      + ListJobs(q.(offset := Some(offset + limit), limit := Some(limit)), localJobs).jobs
      == ListJobs(q.(offset := Some(offset), limit := Some(2 * limit)), localJobs).jobs
  {
    PageOfListing(q, localJobs, offset, limit);
    PageOfListing(q, localJobs, offset + limit, limit);
    PageOfListing(q, localJobs, offset, 2 * limit);
    PagesCover(Listing(q, localJobs),
      ListJobs(q.(offset := Some(offset), limit := Some(limit)), localJobs).jobs,
      ListJobs(q.(offset := Some(offset + limit), limit := Some(limit)), localJobs).jobs,
      ListJobs(q.(offset := Some(offset), limit := Some(2 * limit)), localJobs).jobs,
      offset, limit);
  }
}
