/** The text helpers of the Indeed scraper (python-backend/indeed_scraper.py): salary extraction
    by a prioritised list of patterns, description cleaning, skill extraction, tags and the
    relevance score of an Indeed posting. */
module IndeedScraper {
  import opened Strings
  import opened JobModel
  import opened PyText
  import opened SalaryPattern

  // ---- extract_salary_from_description ----

  /** `(\d{2,3}),?(\d{3})`, an amount such as "80,000" or "80000". */
  const Amount: seq<Piece> := [Digits(2, 3), OptComma, Digits(3, 3)]

  /** `\s*-\s*`. */
  const Dash: seq<Piece> := [Spaces, Lit('-'), Spaces]

  /** `(\d{2,3})k`, matched without case. */
  const Thousands: seq<Piece> := [Digits(2, 3), LitNoCase('k')]

  /** The four patterns in the order they are tried: "$80,000 - $120,000", "$80k - $120k",
      "80,000 - 120,000" and "$80,000". */
  const SalaryPatterns: seq<seq<Piece>> := [
    [Lit('$')] + Amount + Dash + [Lit('$')] + Amount,
    [Lit('$')] + Thousands + Dash + [Lit('$')] + Thousands,
    Amount + Dash + Amount,
    [Lit('$')] + Amount
  ]

  const NotSpecified := "Salary not specified"

  /** Pattern `k` is the first of the list that matches anywhere, its leftmost match starts at
      `i`, and the engine's match there ends at `e`. */
  predicate FirstSalaryMatch(d: string, k: nat, i: nat, e: nat) {
    k < |SalaryPatterns|
    && (forall j :: 0 <= j < k ==> NoMatch(SalaryPatterns[j], d))
    && LeftmostMatch(SalaryPatterns[k], d, i, e)
  }

  /** The text of the leftmost match of the first pattern from index `k` on that matches, or
      "Salary not specified". */
  function SalaryFrom(d: string, k: nat): (r: string)
    requires k <= |SalaryPatterns|
    requires forall j :: 0 <= j < k ==> NoMatch(SalaryPatterns[j], d)
    ensures (forall j :: k <= j < |SalaryPatterns| ==> NoMatch(SalaryPatterns[j], d)) ==> r == NotSpecified
    ensures r == NotSpecified || exists j: nat, i: nat, e: nat :: FirstSalaryMatch(d, j, i, e) && r == d[i..e]
    ensures forall j: nat, i: nat, e: nat :: FirstSalaryMatch(d, j, i, e) ==> r == d[i..e]
    decreases |SalaryPatterns| - k
  {
    if k == |SalaryPatterns| then
      NoFirstSalaryMatch(d);
      NotSpecified
    else
      SearchMeaning(SalaryPatterns[k], d);
      match Search(SalaryPatterns[k], d, 0)
      case Some((i, e)) =>
        assert FirstSalaryMatch(d, k, i, e);
        FirstSalaryMatchUnique(d, k, i, e);
        d[i..e]
      case None => SalaryFrom(d, k + 1)
  }

  /** The text of the first pattern's leftmost match, or "Salary not specified" when no pattern
      matches. */
  function ExtractSalaryFromDescription(description: string): (r: string)
    ensures (forall k :: 0 <= k < |SalaryPatterns| ==> NoMatch(SalaryPatterns[k], description))
      ==> r == NotSpecified
    ensures r == NotSpecified || exists k: nat, i: nat, e: nat :: FirstSalaryMatch(description, k, i, e) && r == description[i..e]
    ensures forall k: nat, i: nat, e: nat :: FirstSalaryMatch(description, k, i, e) ==> r == description[i..e]
  {
    SalaryFrom(description, 0)
  }

  /** When no pattern matches, there is no first match to report. */
  lemma NoFirstSalaryMatch(d: string)
    requires forall j :: 0 <= j < |SalaryPatterns| ==> NoMatch(SalaryPatterns[j], d)
    ensures forall k: nat, i: nat, e: nat :: !FirstSalaryMatch(d, k, i, e)
  {
    forall k: nat, i: nat, e: nat | FirstSalaryMatch(d, k, i, e) ensures false {
      assert MatchesAt(SalaryPatterns[k], d, i);
    }
  }

  /** Only one pattern, start and end can be the first match. */
  lemma FirstSalaryMatchUnique(d: string, k: nat, i: nat, e: nat)
    requires FirstSalaryMatch(d, k, i, e)
    ensures forall k': nat, i': nat, e': nat :: FirstSalaryMatch(d, k', i', e') ==> k' == k && i' == i && e' == e
  {
    forall k': nat, i': nat, e': nat | FirstSalaryMatch(d, k', i', e') ensures k' == k && i' == i && e' == e {
      assert MatchesAt(SalaryPatterns[k], d, i);
      assert MatchesAt(SalaryPatterns[k'], d, i');
      if k' < k {
        assert false;
      } else if k < k' {
        assert false;
      } else if i' < i {
        assert false;
      } else if i < i' {
        assert false;
      }
    }
  }

  // ---- clean_html_description ----

  /** Markup tags removed and whitespace collapsed; unlike the LinkedIn helper there is no guard
      for an empty value. */
  function CleanHtmlDescription(description: string): (r: string)
    ensures SingleSpaced(r)
    ensures NoTag(r)
    ensures Words(r) == Words(StripTags(description))
    ensures NoTag(StripTags(description))
    ensures '<' !in description && SingleSpaced(description) ==> r == description
  {
    CleanHtmlPlain(description);
    CleanHtml(description)
  }

  // ---- extract_skills_from_description ----

  const DescriptionSkills: seq<string> := [
    "React", "JavaScript", "TypeScript", "Python", "Node.js", "Next.js",
    "HTML", "CSS", "Vue", "Angular", "AWS", "Docker", "Git", "SQL",
    "MongoDB", "PostgreSQL", "Redis", "GraphQL", "REST", "API"
  ]

  /** The first eight of the listed skills whose lower-cased name occurs in the lower-cased
      description. */
  method ExtractSkillsFromDescription(description: string) returns (r: seq<string>)
    ensures r == PyTake(FoundIn(DescriptionSkills, Lower(description)), 8)
    ensures |r| <= 8
    ensures forall x :: x in r ==> x in DescriptionSkills && Contains(Lower(description), Lower(x))
    ensures |FoundIn(DescriptionSkills, Lower(description))| <= 8 ==>
      forall x :: x in DescriptionSkills && Contains(Lower(description), Lower(x)) ==> x in r
  {
    var found := CollectFound(DescriptionSkills, Lower(description));
    r := PyTake(found, 8);
    FirstFound(DescriptionSkills, Lower(description), 8);
  }

  // ---- extract_job_tags ----

  const SeniorMarkers: seq<string> := ["senior", "sr.", "lead"]
  const JuniorMarkers: seq<string> := ["junior", "jr.", "entry"]
  const FullTimeMarkers: seq<string> := ["full time", "full-time", "permanent"]
  const PartTimeMarkers: seq<string> := ["part time", "part-time"]
  const ContractMarkers: seq<string> := ["contract", "contractor", "freelance"]

  /** The group a tag belongs to, in the order the tags are appended: level, job type, remote. */
  function JobTagRank(x: string): nat {
    if x in {"Senior", "Junior", "Mid-Level"} then 0 else if x == "Remote" then 2 else 1
  }

  /** The tags read from a lower-cased "title description" text `t`: always one experience level
      first (senior markers win over junior ones, else "Mid-Level"), at most one job type (full
      time, else part time, else contract), and "Remote" last exactly when the text says
      "remote"; no other tag, at most one per group, in that group order. */
  predicate JobTagsOf(t: string, tags: seq<string>) {
    && 1 <= |tags| <= 3
    && (forall x :: x in tags ==> x in {"Senior", "Junior", "Mid-Level", "Full-Time", "Part-Time", "Contract", "Remote"})
    && RankedBy(tags, JobTagRank)
    && (tags[0] == "Senior" <==> ContainsAny(t, SeniorMarkers))
    && (tags[0] == "Junior" <==> !ContainsAny(t, SeniorMarkers) && ContainsAny(t, JuniorMarkers))
    && (tags[0] == "Mid-Level" <==> !ContainsAny(t, SeniorMarkers) && !ContainsAny(t, JuniorMarkers))
    && ("Senior" in tags <==> tags[0] == "Senior") && ("Junior" in tags <==> tags[0] == "Junior")
    && ("Mid-Level" in tags <==> tags[0] == "Mid-Level")
    && ("Full-Time" in tags <==> ContainsAny(t, FullTimeMarkers))
    && ("Part-Time" in tags <==> !ContainsAny(t, FullTimeMarkers) && ContainsAny(t, PartTimeMarkers))
    && ("Contract" in tags <==>
          !ContainsAny(t, FullTimeMarkers) && !ContainsAny(t, PartTimeMarkers) && ContainsAny(t, ContractMarkers))
    && ("Remote" in tags <==> Contains(t, "remote"))
    && ("Remote" in tags ==> tags[|tags| - 1] == "Remote")
  }

  method ExtractJobTags(title: string, description: string) returns (tags: seq<string>)
    ensures JobTagsOf(Lower(title + " " + description), tags)
    ensures var t := Lower(title + " " + description); tags == LevelTagOf(t) + TypeTagOf(t) + RemoteTagOf(t)
  {
    tags := [];
    var text := Lower(title + " " + description);
    if ContainsAny(text, SeniorMarkers) {
      tags := tags + ["Senior"];
    } else if ContainsAny(text, JuniorMarkers) {
      tags := tags + ["Junior"];
    } else {
      tags := tags + ["Mid-Level"];
    }
    assert tags == LevelTagOf(text);
    if ContainsAny(text, FullTimeMarkers) {
      tags := tags + ["Full-Time"];
    } else if ContainsAny(text, PartTimeMarkers) {
      tags := tags + ["Part-Time"];
    } else if ContainsAny(text, ContractMarkers) {
      tags := tags + ["Contract"];
    }
    assert tags == LevelTagOf(text) + TypeTagOf(text);
    if Contains(text, "remote") {
      tags := tags + ["Remote"];
    }
    assert tags == LevelTagOf(text) + TypeTagOf(text) + RemoteTagOf(text);
    JobTagParts(text);
  }

  /** The experience level of the text, always exactly one. */
  function LevelTagOf(t: string): (r: seq<string>)
    ensures |r| == 1 && r[0] in {"Senior", "Junior", "Mid-Level"}
    ensures r[0] == "Senior" <==> ContainsAny(t, SeniorMarkers)
    ensures r[0] == "Junior" <==> !ContainsAny(t, SeniorMarkers) && ContainsAny(t, JuniorMarkers)
  {
    if ContainsAny(t, SeniorMarkers) then ["Senior"]
    else if ContainsAny(t, JuniorMarkers) then ["Junior"]
    else ["Mid-Level"]
  }

  /** The job type of the text, if any: the first group of markers that occurs. */
  function TypeTagOf(t: string): (r: seq<string>)
    ensures |r| <= 1 && forall x :: x in r ==> x in {"Full-Time", "Part-Time", "Contract"}
    ensures "Full-Time" in r <==> ContainsAny(t, FullTimeMarkers)
    ensures "Part-Time" in r <==> !ContainsAny(t, FullTimeMarkers) && ContainsAny(t, PartTimeMarkers)
    ensures "Contract" in r <==>
      !ContainsAny(t, FullTimeMarkers) && !ContainsAny(t, PartTimeMarkers) && ContainsAny(t, ContractMarkers)
  {
    if ContainsAny(t, FullTimeMarkers) then ["Full-Time"]
    else if ContainsAny(t, PartTimeMarkers) then ["Part-Time"]
    else if ContainsAny(t, ContractMarkers) then ["Contract"]
    else []
  }

  function RemoteTagOf(t: string): (r: seq<string>)
    ensures r == [] || r == ["Remote"]
    ensures r == ["Remote"] <==> Contains(t, "remote")
  {
    if Contains(t, "remote") then ["Remote"] else []
  }

  /** The three parts, concatenated, satisfy the tag description. */
  lemma JobTagParts(t: string)
    ensures JobTagsOf(t, LevelTagOf(t) + TypeTagOf(t) + RemoteTagOf(t))
  {
    var a, b, c := LevelTagOf(t), TypeTagOf(t), RemoteTagOf(t);
    JobTagConcat(a, b, c);
    JobTagRanked(a, b, c);
  }

  lemma JobTagConcat(a: seq<string>, b: seq<string>, c: seq<string>)
    requires |a| == 1 && a[0] in {"Senior", "Junior", "Mid-Level"}
    requires |b| <= 1 && forall x :: x in b ==> x in {"Full-Time", "Part-Time", "Contract"}
    requires c == [] || c == ["Remote"]
    ensures 1 <= |a + b + c| <= 3 && (a + b + c)[0] == a[0]
    ensures forall x :: x in {"Full-Time", "Part-Time", "Contract"} ==> (x in a + b + c <==> x in b)
    ensures "Remote" in a + b + c <==> c == ["Remote"]
    ensures "Remote" in a + b + c ==> (a + b + c)[|a + b + c| - 1] == "Remote"
    ensures forall x :: x in a + b + c ==> x in {"Senior", "Junior", "Mid-Level", "Full-Time", "Part-Time", "Contract", "Remote"}
    ensures forall x :: x in {"Senior", "Junior", "Mid-Level"} ==> (x in a + b + c <==> x == a[0])
  {
  }

  /** The parts, concatenated, come in group order. */
  lemma JobTagRanked(a: seq<string>, b: seq<string>, c: seq<string>)
    requires |a| == 1 && a[0] in {"Senior", "Junior", "Mid-Level"}
    requires |b| <= 1 && forall x :: x in b ==> x in {"Full-Time", "Part-Time", "Contract"}
    requires c == [] || c == ["Remote"]
    ensures RankedBy(a + b + c, JobTagRank)
  {
    var s := a + b + c;
    assert JobTagRank(a[0]) == 0 && JobTagRank("Remote") == 2;
    assert JobTagRank("Full-Time") == 1 && JobTagRank("Part-Time") == 1 && JobTagRank("Contract") == 1;
    if b != [] { assert b[0] in b; }
    if b == [] && c != [] {
      assert s == [a[0], "Remote"];
    } else if b != [] && c == [] {
      assert s == [a[0], b[0]];
    } else if b != [] {
      assert s == [a[0], b[0], "Remote"];
    }
  }

  /** The tag description fixes the list: it can only be the three parts in order, so no tag is
      repeated and the groups come as level, job type, remote. */
  lemma JobTagsOfExact(t: string, tags: seq<string>)
    requires JobTagsOf(t, tags)
    ensures tags == LevelTagOf(t) + TypeTagOf(t) + RemoteTagOf(t)
  {
    var parts := LevelTagOf(t) + TypeTagOf(t) + RemoteTagOf(t);
    JobTagParts(t);
    assert forall x :: x in tags <==> x in parts;
    RankedEqual(tags, parts, JobTagRank);
  }

  // ---- calculate_indeed_relevance ----

  const TechSkills: seq<string> := ["react", "javascript", "typescript", "python", "node.js"]

  /** The relevance of an Indeed posting before the cap: base 60, 20 when the search term occurs
      in the title, 10 when it occurs in the description, 3 per tech skill in either, 8 when
      either says "remote". */
  function IndeedRawScore(title: string, description: string, searchTerm: string): int {
    var tl, dl, sl := Lower(title), Lower(description), Lower(searchTerm);
    60 + (if Contains(tl, sl) then 20 else 0) + (if Contains(dl, sl) then 10 else 0)
      + 3 * CountInEither(TechSkills, tl, dl)
      + (if Contains(tl, "remote") || Contains(dl, "remote") then 8 else 0)
  }

  /** The relevance score, `min(95, raw)`. */
  function IndeedRelevance(title: string, description: string, searchTerm: string): (r: int)
    ensures 60 <= r <= 95
    ensures Contains(Lower(title), Lower(searchTerm)) ==> r >= 80
    ensures Contains(Lower(title), Lower(searchTerm)) && Contains(Lower(description), Lower(searchTerm)) ==> r >= 90
    ensures r < 95 ==> r == IndeedRawScore(title, description, searchTerm)
  {
    var raw := IndeedRawScore(title, description, searchTerm);
    if raw < 95 then raw else 95
  }

  /** The source's accumulation: a loop over the tech skills adds 3 for each one found. */
  method CalculateIndeedRelevance(title: string, description: string, searchTerm: string) returns (score: int)
    ensures score == IndeedRelevance(title, description, searchTerm)
  {
    score := 60;
    var titleLower, descriptionLower, searchLower := Lower(title), Lower(description), Lower(searchTerm);
    if Contains(titleLower, searchLower) {
      score := score + 20;
    }
    if Contains(descriptionLower, searchLower) {
      score := score + 10;
    }
    var base := score;
    for i := 0 to |TechSkills|
      invariant score == base + 3 * CountInEither(TechSkills[..i], titleLower, descriptionLower)
    {
      assert TechSkills[..i + 1][..i] == TechSkills[..i];
      var skill := TechSkills[i];
      if Contains(titleLower, skill) || Contains(descriptionLower, skill) {
        score := score + 3;
      }
    }
    assert TechSkills[..|TechSkills|] == TechSkills;
    if Contains(titleLower, "remote") || Contains(descriptionLower, "remote") {
      score := score + 8;
    }
    if score > 95 {
      score := 95;
    }
  }

  /** The score only grows with what the posting mentions: a posting that mentions everything
      another one does (the search term in the title, in the description, "remote", each tech
      skill) scores at least as much. */
  lemma IndeedRelevanceMonotone(title: string, description: string, title': string, description': string, searchTerm: string)
    requires var s := Lower(searchTerm);
      (Contains(Lower(title), s) ==> Contains(Lower(title'), s))
      && (Contains(Lower(description), s) ==> Contains(Lower(description'), s))
      && (Contains(Lower(title), "remote") || Contains(Lower(description), "remote")
          ==> Contains(Lower(title'), "remote") || Contains(Lower(description'), "remote"))
      && forall k :: 0 <= k < |TechSkills| ==>
          (Contains(Lower(title), TechSkills[k]) || Contains(Lower(description), TechSkills[k])
           ==> Contains(Lower(title'), TechSkills[k]) || Contains(Lower(description'), TechSkills[k]))
    ensures IndeedRelevance(title, description, searchTerm) <= IndeedRelevance(title', description', searchTerm)
  {
    CountInEitherMonotone(TechSkills, Lower(title), Lower(description), Lower(title'), Lower(description'));
  }
}
