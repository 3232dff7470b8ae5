/** The fallback scraper over RemoteOK's job list (python-backend/simple_scraper.py): the loop
    that picks and converts matching postings from an already decoded response, its salary text
    and its relevance score. */
module SimpleScraper {
  import opened Strings
  import opened JobModel
  import opened PyText

  /** An element of the decoded response list: something other than an object, or a posting
      whose keys may be absent (None). */
  datatype Item =
    | NotDict
    | Posting(position: Option<string>, company: Option<string>, description: Option<string>,
              tags: Option<seq<string>>, salaryMin: Option<int>, salaryMax: Option<int>, url: Option<string>)

  /** A converted posting. The id and posting date come from uuid and the clock and are not part
      of this model. */
  datatype ScrapedJob = ScrapedJob(
    title: string, company: string, location: string, salary: string, source: string,
    description: string, requirements: seq<string>, isRemote: bool, relevanceScore: int,
    applicationStatus: Status, tags: seq<string>, url: string)

  /** `d.get(key, default)`. */
  function Get(v: Option<string>, default: string): string {
    if v.Some? then v.value else default
  }

  function TagsOf(item: Item): seq<string>
    requires item.Posting?
  {
    if item.tags.Some? then item.tags.value else []
  }

  // ---- format_salary_remoteok ----

  /** A present, non-zero amount (Python truthiness of a number). */
  predicate Truthy(v: Option<int>) {
    v.Some? && v.value != 0
  }

  /** "$a - $b" when both amounts are truthy, "$a+" when only the minimum is, and "Salary not
      specified" otherwise, even when only the maximum is given; the amounts written read back as
      themselves. */
  function FormatSalaryRemoteOk(minSalary: Option<int>, maxSalary: Option<int>): (r: string)
    ensures Truthy(minSalary) && Truthy(maxSalary) ==>
      exists x, y :: r == "$" + x + " - $" + y && ReadsAs(x, minSalary.value) && ReadsAs(y, maxSalary.value)
    ensures Truthy(minSalary) && !Truthy(maxSalary) ==>
      exists x :: r == "$" + x + "+" && ReadsAs(x, minSalary.value)
    ensures !Truthy(minSalary) ==> r == "Salary not specified"
  {
    if Truthy(minSalary) && Truthy(maxSalary) then
      FormatThousandsReads(minSalary.value);
      FormatThousandsReads(maxSalary.value);
      "$" + FormatThousands(minSalary.value) + " - $" + FormatThousands(maxSalary.value)
    else if Truthy(minSalary) then
      FormatThousandsReads(minSalary.value);
      "$" + FormatThousands(minSalary.value) + "+"
    else "Salary not specified"
  }

  // ---- calculate_relevance_simple ----

  const SimpleTechSkills: seq<string> := ["react", "javascript", "python", "typescript"]

  /** The score before the cap: base 70, 15 when the search term occurs in the title, 10 when it
      occurs in the joined tags, 3 per tech skill in the tags or the title. */
  function SimpleRawScore(item: Item, searchTerm: string): int
    requires item.Posting?
  {
    var title := Lower(Get(item.position, ""));
    var tags := Lower(JoinWith(TagsOf(item), " "));
    var term := Lower(searchTerm);
    70 + (if Contains(title, term) then 15 else 0) + (if Contains(tags, term) then 10 else 0)
      + 3 * CountInEither(SimpleTechSkills, tags, title)
  }

  /** `min(95, raw)`. */
  function SimpleRelevance(item: Item, searchTerm: string): (r: int)
    requires item.Posting?
    ensures 70 <= r <= 95
    ensures Contains(Lower(Get(item.position, "")), Lower(searchTerm)) ==> r >= 85
    ensures r < 95 ==> r == SimpleRawScore(item, searchTerm)
  {
    var raw := SimpleRawScore(item, searchTerm);
    if raw < 95 then raw else 95
  }

  /** The source's accumulation, with a loop over the tech skills. */
  method CalculateRelevanceSimple(item: Item, searchTerm: string) returns (score: int)
    requires item.Posting?
    ensures score == SimpleRelevance(item, searchTerm)
  {
    score := 70;
    var title := Lower(Get(item.position, ""));
    var tags := Lower(JoinWith(TagsOf(item), " "));
    if Contains(title, Lower(searchTerm)) {
      score := score + 15;
    }
    if Contains(tags, Lower(searchTerm)) {
      score := score + 10;
    }
    ghost var base := score;
    assert SimpleRawScore(item, searchTerm) == base + 3 * CountInEither(SimpleTechSkills, tags, title);
    for i := 0 to |SimpleTechSkills|
      invariant score == base + 3 * CountInEither(SimpleTechSkills[..i], tags, title)
    {
      CountInEitherStep(SimpleTechSkills, i, tags, title);
      var skill := SimpleTechSkills[i];
      if Contains(tags, skill) || Contains(title, skill) {
        score := score + 3;
      }
    }
    assert SimpleTechSkills[..|SimpleTechSkills|] == SimpleTechSkills;
    if score > 95 {
      score := 95;
    }
  }

  // ---- the selection loop of scrape_remoteok_jobs ----

  /** The terms a posting must mention one of: the lower-cased search term and four defaults. */
  function SearchTerms(searchTerm: string): (ts: seq<string>)
    ensures |ts| == 5 && ts[0] == Lower(searchTerm)
  {
    [Lower(searchTerm), "react", "javascript", "frontend", "developer"]
  }

  /** The lower-cased "title description tags company" text searched. */
  function JobText(item: Item): string
    requires item.Posting?
  {
    Lower(Get(item.position, "")) + " " + Lower(Get(item.description, "")) + " "
      + Lower(JoinWith(TagsOf(item), " ")) + " " + Lower(Get(item.company, ""))
  }

  /** The searched text holds the lower-cased title, description, tags and company. */
  lemma JobTextHoldsFields(item: Item)
    requires item.Posting?
    ensures var t := JobText(item);
      && Contains(t, Lower(Get(item.position, "")))
      && Contains(t, Lower(Get(item.description, "")))
      && Contains(t, Lower(JoinWith(TagsOf(item), " ")))
      && Contains(t, Lower(Get(item.company, "")))
  {
    ContainsInJoin4(Lower(Get(item.position, "")), Lower(Get(item.description, "")),
                    Lower(JoinWith(TagsOf(item), " ")), Lower(Get(item.company, "")));
  }

  /** A posting is kept when its text mentions one of the search terms. */
  predicate Wanted(item: Item, searchTerm: string) {
    item.Posting? && ContainsAny(JobText(item), SearchTerms(searchTerm))
  }

  /** In particular a posting whose lower-cased title or description mentions the lower-cased
      search term is kept. */
  lemma MentionedWanted(item: Item, searchTerm: string)
    requires item.Posting?
    ensures Contains(Lower(Get(item.position, "")), Lower(searchTerm))
            || Contains(Lower(Get(item.description, "")), Lower(searchTerm))
        ==> Wanted(item, searchTerm)
  {
    var t, term := JobText(item), Lower(searchTerm);
    JobTextHoldsFields(item);
    assert SearchTerms(searchTerm)[0] == term;
    if Contains(Lower(Get(item.position, "")), term) {
      ContainsTrans(t, Lower(Get(item.position, "")), term);
    } else if Contains(Lower(Get(item.description, "")), term) {
      ContainsTrans(t, Lower(Get(item.description, "")), term);
    }
  }

  /** The record a posting becomes: always remote, with RemoteOK as source, the description cut
      at 500 characters, the first eight tags as requirements and "Remote" before the first
      five tags. */
  function Convert(item: Item, searchTerm: string): (j: ScrapedJob)
    requires item.Posting?
    ensures j.isRemote && j.location == "Remote" && j.source == "RemoteOK"
    ensures |j.requirements| <= 8 && 1 <= |j.tags| <= 6 && j.tags[0] == "Remote"
    ensures 70 <= j.relevanceScore <= 95
  {
    var tags := TagsOf(item);
    ScrapedJob(
      Get(item.position, "Developer"), Get(item.company, "Remote Company"), "Remote",
      FormatSalaryRemoteOk(item.salaryMin, item.salaryMax), "RemoteOK",
      Truncate(Get(item.description, ""), 500), PyTake(tags, 8), true,
      SimpleRelevance(item, searchTerm), NotApplied, ["Remote"] + PyTake(tags, 5),
      Get(item.url, "#"))
  }

  /** The conversions of the wanted postings of `items`, in order. */
  function Selected(items: seq<Item>, searchTerm: string): (r: seq<ScrapedJob>)
    ensures |r| <= |items|
  {
    if items == [] then []
    else
      var last := items[|items| - 1];
      Selected(items[..|items| - 1], searchTerm) + (if Wanted(last, searchTerm) then [Convert(last, searchTerm)] else [])
  }

  /** Each selected job is the conversion of a wanted posting. */
  lemma {:induction false} SelectedSound(items: seq<Item>, searchTerm: string)
    ensures forall j :: j in Selected(items, searchTerm) ==> ConvertedFrom(j, items, searchTerm)
  {
    if items != [] {
      var init, last := items[..|items| - 1], items[|items| - 1];
      SelectedSound(init, searchTerm);
      assert init + [last] == items;
      var tail := if Wanted(last, searchTerm) then [Convert(last, searchTerm)] else [];
      assert Selected(items, searchTerm) == Selected(init, searchTerm) + tail;
      forall j | j in Selected(items, searchTerm) ensures ConvertedFrom(j, init + [last], searchTerm) {
        if j in Selected(init, searchTerm) {
          ConvertedFromExtend(j, init, last, searchTerm);
        } else {
          ConvertedFromLast(j, init, last, searchTerm);
        }
      }
    }
  }

  /** Every wanted posting is converted and selected. */
  lemma {:induction false} SelectedComplete(items: seq<Item>, searchTerm: string, k: nat)
    requires k < |items| && Wanted(items[k], searchTerm)
    ensures Convert(items[k], searchTerm) in Selected(items, searchTerm)
  {
    var init, last := items[..|items| - 1], items[|items| - 1];
    var rest := Selected(init, searchTerm);
    var tail := if Wanted(last, searchTerm) then [Convert(last, searchTerm)] else [];
    assert Selected(items, searchTerm) == rest + tail;
    if k < |init| {
      assert init[k] == items[k];
      SelectedComplete(init, searchTerm, k);
    } else {
      assert last == items[k];
    }
  }

  lemma ConvertedFromExtend(j: ScrapedJob, init: seq<Item>, last: Item, searchTerm: string)
    requires ConvertedFrom(j, init, searchTerm)
    ensures ConvertedFrom(j, init + [last], searchTerm)
  {
    var k :| 0 <= k < |init| && Wanted(init[k], searchTerm) && j == Convert(init[k], searchTerm);
    assert (init + [last])[k] == init[k];
  }

  lemma ConvertedFromLast(j: ScrapedJob, init: seq<Item>, last: Item, searchTerm: string)
    requires Wanted(last, searchTerm) && j == Convert(last, searchTerm)
    ensures ConvertedFrom(j, init + [last], searchTerm)
  {
    assert (init + [last])[|init|] == last;
  }

  /** The loop over the items after the first (metadata) element. Non-objects are skipped, the
      loop stops once `limit` jobs are collected, and a posting mentioning none of the search
      terms is skipped. A non-200 status or a response of at most one element gives []. */
  method ScrapeRemoteOk(status: int, data: seq<Item>, searchTerm: string, limit: int) returns (jobs: seq<ScrapedJob>)
    ensures status != 200 || |data| <= 1 || limit < 0 ==> jobs == []
    ensures status == 200 && |data| > 1 && limit >= 0 ==> jobs == PyTake(Selected(data[1..], searchTerm), limit)
    ensures limit >= 0 ==> |jobs| <= limit
    ensures forall j :: j in jobs ==> j.isRemote && j.source == "RemoteOK" && ConvertedFrom(j, data[1..], searchTerm)
  {
    if status != 200 {
      return [];
    }
    if |data| <= 1 {
      return [];
    }
    jobs := [];
    ghost var stopped := false;
    var i := 1;
    while i < |data|
      invariant 1 <= i <= |data|
      invariant jobs == Selected(data[1..i], searchTerm)
      invariant limit < 0 ==> jobs == []
      invariant limit >= 0 ==> |jobs| <= limit
      invariant stopped ==> limit >= 0 && |jobs| == limit
    {
      var item := data[i];
      SelectedStep(data, i, searchTerm);
      if !item.Posting? {
        i := i + 1;
        continue;
      }
      if |jobs| >= limit {
        if limit >= 0 {
          stopped := true;
        }
        break;
      }
      if !ContainsAny(JobText(item), SearchTerms(searchTerm)) {
        i := i + 1;
        continue;
      }
      jobs := jobs + [Convert(item, searchTerm)];
      i := i + 1;
    }
    if stopped {
      StoppedPrefix(data, i, searchTerm, limit);
    } else if i == |data| {
      assert data[1..i] == data[1..];
    }
    jobs := PyTake(jobs, limit);
    if limit >= 0 {
      FirstSelectedFacts(data[1..], searchTerm, limit);
    }
  }

  lemma SelectedStep(data: seq<Item>, i: nat, searchTerm: string)
    requires 1 <= i < |data|
    ensures Selected(data[1..i + 1], searchTerm)
         == Selected(data[1..i], searchTerm)
            + (if Wanted(data[i], searchTerm) then [Convert(data[i], searchTerm)] else [])
  {
    assert data[1..i + 1][..i - 1] == data[1..i];
  }

  /** Once `limit` jobs are collected, taking `limit` of the whole selection gives the same jobs. */
  lemma StoppedPrefix(data: seq<Item>, i: nat, searchTerm: string, limit: int)
    requires 1 <= i <= |data| && limit >= 0 && |Selected(data[1..i], searchTerm)| == limit
    ensures PyTake(Selected(data[1..i], searchTerm), limit) == PyTake(Selected(data[1..], searchTerm), limit)
  {
    SliceSplit(data, 1, i);
    SelectedAppend(data[1..i], data[i..], searchTerm);
    TakeOfAppend(Selected(data[1..i], searchTerm), Selected(data[i..], searchTerm), limit);
  }

  /** `j` is the conversion of one of the wanted postings of `items`. */
  predicate ConvertedFrom(j: ScrapedJob, items: seq<Item>, searchTerm: string) {
    exists k :: 0 <= k < |items| && Wanted(items[k], searchTerm) && j == Convert(items[k], searchTerm)
  }

  /** The first `limit` selected jobs are conversions of wanted postings. */
  lemma FirstSelectedFacts(items: seq<Item>, searchTerm: string, limit: int)
    requires limit >= 0
    ensures forall j :: j in PyTake(Selected(items, searchTerm), limit) ==> ConvertedFrom(j, items, searchTerm)
  {
    SelectedSound(items, searchTerm);
    var sel := Selected(items, searchTerm);
    forall j | j in PyTake(sel, limit) ensures j in sel {
      var m := if limit < |sel| then limit else |sel|;
      var i :| 0 <= i < m && sel[..m][i] == j;
      assert sel[i] == j;
    }
  }

  /** The selection of a concatenation is the concatenation of the selections. */
  lemma {:induction false} SelectedAppend(a: seq<Item>, b: seq<Item>, searchTerm: string)
    ensures Selected(a + b, searchTerm) == Selected(a, searchTerm) + Selected(b, searchTerm)
    decreases |b|
  {
    if b == [] {
      assert a + b == a;
    } else {
      var b' := b[..|b| - 1];
      SelectedAppend(a, b', searchTerm);
      InitOfAppend(a, b);
      var tail := if Wanted(b[|b| - 1], searchTerm) then [Convert(b[|b| - 1], searchTerm)] else [];
      ConcatAssoc(Selected(a, searchTerm), Selected(b', searchTerm), tail);
    }
  }
}
