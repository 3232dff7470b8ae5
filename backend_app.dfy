/** The row-to-job helpers of the Flask back end (python-backend/app.py) that turns job-board
    scrape results into the front end's job records: relevance, salary text, remote detection,
    requirements, tags, the location mapping of the search endpoint and description truncation. */
module BackendApp {
  import opened Strings
  import opened JobModel
  import opened PyText

  /** A cell of a scraped row: text, or a missing value (NaN), whose `str()` is "nan". */
  datatype Cell = Text(text: string) | Missing

  function Str(c: Cell): string {
    match c
    case Text(t) => t
    case Missing => "nan"
  }

  /** The columns of a scraped row the helpers read. `daysAgo` is the whole days between the
      posting date and now, or None when the date is absent or does not parse; the amounts are
      the integer parts of the salary bounds, None when missing. */
  datatype Row = Row(
    title: Cell, company: Cell, location: Cell, description: Cell, jobType: Cell,
    daysAgo: Option<int>, minAmount: Option<int>, maxAmount: Option<int>)

  // ---- is_remote_job ----

  const RemoteKeywords: seq<string> := ["remote", "work from home", "wfh", "distributed", "anywhere"]

  /** Keyword `k` occurs in the lower-cased location, title or description. */
  predicate KeywordIn(row: Row, k: nat)
    requires k < |RemoteKeywords|
  {
    var kw := RemoteKeywords[k];
    Contains(Lower(Str(row.location)), kw) || Contains(Lower(Str(row.title)), kw)
      || Contains(Lower(Str(row.description)), kw)
  }

  /** Some keyword from index `k` on occurs. */
  function RemoteFrom(row: Row, k: nat): (r: bool)
    requires k <= |RemoteKeywords|
    ensures r <==> exists j :: k <= j < |RemoteKeywords| && KeywordIn(row, j)
    decreases |RemoteKeywords| - k
  {
    if k == |RemoteKeywords| then false
    else if KeywordIn(row, k) then true
    else RemoteFrom(row, k + 1)
  }

  /** True exactly when one of the five remote keywords occurs in the location, title or
      description. */
  function IsRemoteJob(row: Row): (r: bool)
    ensures r <==> exists k :: 0 <= k < |RemoteKeywords| && KeywordIn(row, k)
  {
    RemoteFrom(row, 0)
  }

  // ---- calculate_basic_relevance ----

  const ProfileSkills: seq<string> :=
    ["react", "javascript", "python", "next.js", "tailwindcss", "typescript", "node.js"]

  /** 10 for a posting at most a week old, else 5 for one at most 30 days old. */
  function RecencyPoints(daysAgo: Option<int>): (p: int)
    ensures p in {0, 5, 10}
  {
    match daysAgo
    case None => 0
    case Some(d) => if d <= 7 then 10 else if d <= 30 then 5 else 0
  }

  function NashvilleInLocation(row: Row): bool {
    var location := Lower(Str(row.location));
    Contains(location, "nashville") || Contains(location, "tennessee")
  }

  /** The score before clamping: base 50, 8 per profile skill in the title or description, 10
      when remote, 8 for a Nashville or Tennessee location, and the recency points. */
  function BasicRawScore(row: Row): int {
    50 + 8 * CountInEither(ProfileSkills, Lower(Str(row.title)), Lower(Str(row.description)))
      + (if IsRemoteJob(row) then 10 else 0)
      + (if NashvilleInLocation(row) then 8 else 0)
      + RecencyPoints(row.daysAgo)
  }

  /** `min(96, max(70, raw))`. */
  function BasicRelevance(row: Row): (r: int)
    ensures 70 <= r <= 96
    ensures 70 < r < 96 ==> r == BasicRawScore(row)
  {
    var raw := BasicRawScore(row);
    if raw < 70 then 70 else if raw > 96 then 96 else raw
  }

  /** The source's accumulation: a loop over the profile skills adds 8 for each one found. */
  method CalculateBasicRelevance(row: Row) returns (score: int)
    ensures score == BasicRelevance(row)
  {
    score := 50;
    var title, description := Lower(Str(row.title)), Lower(Str(row.description));
    for i := 0 to |ProfileSkills|
      invariant score == 50 + 8 * CountInEither(ProfileSkills[..i], title, description)
    {
      assert ProfileSkills[..i + 1][..i] == ProfileSkills[..i];
      var skill := ProfileSkills[i];
      if Contains(title, skill) || Contains(description, skill) {
        score := score + 8;
      }
    }
    assert ProfileSkills[..|ProfileSkills|] == ProfileSkills;
    if IsRemoteJob(row) {
      score := score + 10;
    }
    var location := Lower(Str(row.location));
    if Contains(location, "nashville") || Contains(location, "tennessee") {
      score := score + 8;
    }
    match row.daysAgo {
      case None =>
      case Some(d) =>
        if d <= 7 {
          score := score + 10;
        } else if d <= 30 {
          score := score + 5;
        }
    }
    if score < 70 {
      score := 70;
    }
    if score > 96 {
      score := 96;
    }
  }

  /** A newer posting never scores lower than the same posting seen later, and a posting with a
      usable date never scores lower than one without. */
  lemma BasicRelevanceRecency(row: Row, d: int, d': int)
    requires d <= d'
    ensures BasicRelevance(row.(daysAgo := Some(d))) >= BasicRelevance(row.(daysAgo := Some(d')))
    ensures BasicRelevance(row.(daysAgo := Some(d))) >= BasicRelevance(row.(daysAgo := None))
  {
    var a, b, c := row.(daysAgo := Some(d)), row.(daysAgo := Some(d')), row.(daysAgo := None);
    assert IsRemoteJob(a) == IsRemoteJob(b) == IsRemoteJob(c);
    assert NashvilleInLocation(a) == NashvilleInLocation(b) == NashvilleInLocation(c);
  }

  /** Each profile skill found adds its 8 points: a posting that mentions every skill another one
      does, and is otherwise alike, never scores lower. */
  lemma BasicRelevanceSkills(row: Row, title': Cell, description': Cell)
    requires var t, dsc, t', dsc' := Lower(Str(row.title)), Lower(Str(row.description)), Lower(Str(title')), Lower(Str(description'));
      forall k :: 0 <= k < |ProfileSkills| ==>
        (Contains(t, ProfileSkills[k]) || Contains(dsc, ProfileSkills[k]) ==> Contains(t', ProfileSkills[k]) || Contains(dsc', ProfileSkills[k]))
    requires IsRemoteJob(row) == IsRemoteJob(row.(title := title', description := description'))
    ensures BasicRelevance(row) <= BasicRelevance(row.(title := title', description := description'))
  {
    var row' := row.(title := title', description := description');
    CountInEitherMonotone(ProfileSkills, Lower(Str(row.title)), Lower(Str(row.description)), Lower(Str(title')), Lower(Str(description')));
    assert NashvilleInLocation(row) == NashvilleInLocation(row');
  }

  // ---- format_salary ----

  /** "$a - $b", "$a+", "Up to $b" or "Salary not specified", the amounts grouped in thousands
      with commas; each amount written reads back as itself. */
  function FormatSalary(row: Row): (r: string)
    ensures row.minAmount.Some? && row.maxAmount.Some? ==>
      exists x, y :: r == "$" + x + " - $" + y && ReadsAs(x, row.minAmount.value) && ReadsAs(y, row.maxAmount.value)
    ensures row.minAmount.Some? && row.maxAmount.None? ==>
      exists x :: r == "$" + x + "+" && ReadsAs(x, row.minAmount.value)
    ensures row.minAmount.None? && row.maxAmount.Some? ==>
      exists y :: r == "Up to $" + y && ReadsAs(y, row.maxAmount.value)
    ensures row.minAmount.None? && row.maxAmount.None? ==> r == "Salary not specified"
  {
    match (row.minAmount, row.maxAmount)
    case (Some(a), Some(b)) =>
      FormatThousandsReads(a);
      FormatThousandsReads(b);
      "$" + FormatThousands(a) + " - $" + FormatThousands(b)
    case (Some(a), None) =>
      FormatThousandsReads(a);
      "$" + FormatThousands(a) + "+"
    case (None, Some(b)) =>
      FormatThousandsReads(b);
      "Up to $" + FormatThousands(b)
    case (None, None) => "Salary not specified"
  }

  // ---- extract_requirements ----

  const RequirementSkills: seq<string> := [
    "react", "javascript", "python", "typescript", "node.js", "next.js",
    "html", "css", "tailwindcss", "git", "aws", "docker", "sql",
    "mongodb", "postgresql", "redis", "graphql", "rest api"
  ]

  /** Python `str.title()` of each name. */
  function Titles(xs: seq<string>): (r: seq<string>)
    ensures |r| == |xs| && forall k :: 0 <= k < |xs| ==> r[k] == Title(xs[k])
  {
    seq(|xs|, k requires 0 <= k < |xs| => Title(xs[k]))
  }

  lemma RequirementSkillsLower()
    ensures forall k :: 0 <= k < |RequirementSkills| ==> Lower(RequirementSkills[k]) == RequirementSkills[k]
  {
    forall k | 0 <= k < |RequirementSkills| ensures Lower(RequirementSkills[k]) == RequirementSkills[k] {
      LowerOfLowercase(RequirementSkills[k]);
    }
  }

  /** `x` is the title-cased name of a listed skill that occurs in `text`. */
  predicate FoundRequirement(x: string, text: string) {
    exists k :: 0 <= k < |RequirementSkills| && x == Title(RequirementSkills[k]) && Contains(text, RequirementSkills[k])
  }

  /** Every listed skill that occurs in `text` is in `r`, title-cased. */
  predicate AllFoundListed(r: seq<string>, text: string) {
    forall k :: 0 <= k < |RequirementSkills| && Contains(text, RequirementSkills[k]) ==> Title(RequirementSkills[k]) in r
  }

  /** No requirements for a missing description. Otherwise the title-cased names of the listed
      skills that occur in the lower-cased description, in list order, at most eight; when at
      most eight occur, all of them. */
  method ExtractRequirements(description: Cell) returns (r: seq<string>)
    ensures description == Missing ==> r == []
    ensures description.Text? ==>
      var text := Lower(description.text);
      && r == PyTake(Titles(FoundIn(RequirementSkills, text)), 8)
      && |r| <= 8
      && (forall x :: x in r ==> FoundRequirement(x, text))
      && (|FoundIn(RequirementSkills, text)| <= 8 ==> AllFoundListed(r, text))
  {
    if description == Missing {
      return [];
    }
    var text := Lower(Str(description));
    RequirementSkillsLower();
    var found := [];
    for i := 0 to |RequirementSkills|
      invariant found == Titles(FoundIn(RequirementSkills[..i], text))
    {
      RequirementStep(text, i);
      var skill := RequirementSkills[i];
      if Contains(text, skill) {
        found := found + [Title(skill)];
      }
    }
    assert RequirementSkills[..|RequirementSkills|] == RequirementSkills;
    r := PyTake(found, 8);
    RequirementsMeaning(text);
  }

  lemma TitlesAppend(a: seq<string>, b: seq<string>)
    ensures Titles(a + b) == Titles(a) + Titles(b)
  {
  }

  /** One step of the scan: the next listed skill is appended, title-cased, when it occurs. */
  lemma RequirementStep(text: string, i: nat)
    requires i < |RequirementSkills|
    ensures Titles(FoundIn(RequirementSkills[..i + 1], text))
      == Titles(FoundIn(RequirementSkills[..i], text))
         + (if Contains(text, RequirementSkills[i]) then [Title(RequirementSkills[i])] else [])
  {
    var p := RequirementSkills[..i + 1];
    assert p[..|p| - 1] == RequirementSkills[..i];
    assert p[|p| - 1] == RequirementSkills[i];
    RequirementSkillsLower();
    assert Lower(RequirementSkills[i]) == RequirementSkills[i];
    var step := if Contains(text, RequirementSkills[i]) then [RequirementSkills[i]] else [];
    assert FoundIn(p, text) == FoundIn(RequirementSkills[..i], text) + step;
    TitlesAppend(FoundIn(RequirementSkills[..i], text), step);
  }

  lemma RequirementsMeaning(text: string)
    ensures var f := FoundIn(RequirementSkills, text); var r := PyTake(Titles(f), 8);
      && (forall x :: x in r ==> FoundRequirement(x, text))
      && (|f| <= 8 ==> AllFoundListed(r, text))
  {
    var f := FoundIn(RequirementSkills, text);
    var r := PyTake(Titles(f), 8);
    FoundInMembers(RequirementSkills, text);
    RequirementSkillsLower();
    forall x | x in r ensures FoundRequirement(x, text) {
      var i :| 0 <= i < |r| && r[i] == x;
      assert x == Title(f[i]);
      assert f[i] in f;
      var k :| 0 <= k < |RequirementSkills| && RequirementSkills[k] == f[i];
      assert Lower(RequirementSkills[k]) == RequirementSkills[k];
    }
    if |f| <= 8 {
      assert r == Titles(f);
      forall k | 0 <= k < |RequirementSkills| && Contains(text, RequirementSkills[k])
        ensures Title(RequirementSkills[k]) in r
      {
        assert Lower(RequirementSkills[k]) == RequirementSkills[k];
        assert RequirementSkills[k] in f;
        var i :| 0 <= i < |f| && f[i] == RequirementSkills[k];
        assert r[i] == Title(RequirementSkills[k]);
      }
    }
  }

  // ---- extract_tags ----

  /** The group a tag belongs to, in the order the tags are appended: remote, level, job type. */
  function RowTagRank(x: string): nat {
    if x == "Remote" then 0 else if x in {"Senior", "Junior", "Mid-Level"} then 1 else 2
  }

  /** Tags of a row: "Remote" first exactly when the row is remote; then at most one experience
      tag from the lower-cased title (senior, else junior or entry, else mid or intermediate);
      then at most one job-type tag from the lower-cased job type (full-time, else part-time,
      else contract); no other tag, and the groups in that order. */
  predicate TagsOfRow(row: Row, tags: seq<string>) {
    var t, j := Lower(Str(row.title)), Lower(Str(row.jobType));
    && |tags| <= 3
    && (forall x :: x in tags ==> x in {"Remote", "Senior", "Junior", "Mid-Level", "Full-Time", "Part-Time", "Contract"})
    && RankedBy(tags, RowTagRank)
    && ("Remote" in tags <==> IsRemoteJob(row))
    && ("Remote" in tags ==> tags[0] == "Remote")
    && ("Senior" in tags <==> Contains(t, "senior"))
    && ("Junior" in tags <==> !Contains(t, "senior") && (Contains(t, "junior") || Contains(t, "entry")))
    && ("Mid-Level" in tags <==> !Contains(t, "senior") && !Contains(t, "junior") && !Contains(t, "entry")
                                 && (Contains(t, "mid") || Contains(t, "intermediate")))
    && ("Full-Time" in tags <==> Contains(j, "full-time"))
    && ("Part-Time" in tags <==> !Contains(j, "full-time") && Contains(j, "part-time"))
    && ("Contract" in tags <==> !Contains(j, "full-time") && !Contains(j, "part-time") && Contains(j, "contract"))
  }

  method ExtractTags(row: Row) returns (tags: seq<string>)
    ensures TagsOfRow(row, tags)
    ensures tags == (if IsRemoteJob(row) then ["Remote"] else []) + LevelTag(Lower(Str(row.title)))
                    + TypeTag(Lower(Str(row.jobType)))
  {
    tags := [];
    if IsRemoteJob(row) {
      tags := tags + ["Remote"];
    }
    ghost var remote := tags;
    var title := Lower(Str(row.title));
    if Contains(title, "senior") {
      tags := tags + ["Senior"];
    } else if Contains(title, "junior") || Contains(title, "entry") {
      tags := tags + ["Junior"];
    } else if Contains(title, "mid") || Contains(title, "intermediate") {
      tags := tags + ["Mid-Level"];
    }
    assert tags == remote + LevelTag(title);
    var jobType := Lower(Str(row.jobType));
    if Contains(jobType, "full-time") {
      tags := tags + ["Full-Time"];
    } else if Contains(jobType, "part-time") {
      tags := tags + ["Part-Time"];
    } else if Contains(jobType, "contract") {
      tags := tags + ["Contract"];
    }
    assert tags == remote + LevelTag(title) + TypeTag(jobType);
    TagsOfParts(row, remote);
  }

  lemma TagsOfParts(row: Row, remote: seq<string>)
    requires remote == if IsRemoteJob(row) then ["Remote"] else []
    ensures TagsOfRow(row, remote + LevelTag(Lower(Str(row.title))) + TypeTag(Lower(Str(row.jobType))))
  {
    TagParts(remote, LevelTag(Lower(Str(row.title))), TypeTag(Lower(Str(row.jobType))));
    TagRanked(remote, LevelTag(Lower(Str(row.title))), TypeTag(Lower(Str(row.jobType))));
  }

  /** The tag description fixes the list: it can only be the three parts in order, so no tag is
      repeated and the groups come as remote, level, job type. */
  lemma TagsOfRowExact(row: Row, tags: seq<string>)
    requires TagsOfRow(row, tags)
    ensures tags == (if IsRemoteJob(row) then ["Remote"] else []) + LevelTag(Lower(Str(row.title)))
                    + TypeTag(Lower(Str(row.jobType)))
  {
    var remote := if IsRemoteJob(row) then ["Remote"] else [];
    var parts := remote + LevelTag(Lower(Str(row.title))) + TypeTag(Lower(Str(row.jobType)));
    TagsOfParts(row, remote);
    assert forall x :: x in tags <==> x in parts;
    RankedEqual(tags, parts, RowTagRank);
  }

  /** The experience tag of a lower-cased title: the first of Senior, Junior, Mid-Level whose
      words occur, if any. */
  function LevelTag(t: string): (r: seq<string>)
    ensures |r| <= 1 && forall x :: x in r ==> x in {"Senior", "Junior", "Mid-Level"}
    ensures "Senior" in r <==> Contains(t, "senior")
    ensures "Junior" in r <==> !Contains(t, "senior") && (Contains(t, "junior") || Contains(t, "entry"))
    ensures "Mid-Level" in r <==> !Contains(t, "senior") && !Contains(t, "junior") && !Contains(t, "entry")
                                  && (Contains(t, "mid") || Contains(t, "intermediate"))
  {
    if Contains(t, "senior") then ["Senior"]
    else if Contains(t, "junior") || Contains(t, "entry") then ["Junior"]
    else if Contains(t, "mid") || Contains(t, "intermediate") then ["Mid-Level"]
    else []
  }

  /** The job-type tag of a lower-cased job type: the first of Full-Time, Part-Time, Contract
      that occurs, if any. */
  function TypeTag(j: string): (r: seq<string>)
    ensures |r| <= 1 && forall x :: x in r ==> x in {"Full-Time", "Part-Time", "Contract"}
    ensures "Full-Time" in r <==> Contains(j, "full-time")
    ensures "Part-Time" in r <==> !Contains(j, "full-time") && Contains(j, "part-time")
    ensures "Contract" in r <==> !Contains(j, "full-time") && !Contains(j, "part-time") && Contains(j, "contract")
  {
    if Contains(j, "full-time") then ["Full-Time"]
    else if Contains(j, "part-time") then ["Part-Time"]
    else if Contains(j, "contract") then ["Contract"]
    else []
  }

  /** The three parts of the tag list hold disjoint names, so a name is in the list exactly when
      it is in its own part. */
  lemma TagParts(a: seq<string>, b: seq<string>, c: seq<string>)
    requires a == [] || a == ["Remote"]
    requires |b| <= 1 && forall x :: x in b ==> x in {"Senior", "Junior", "Mid-Level"}
    requires |c| <= 1 && forall x :: x in c ==> x in {"Full-Time", "Part-Time", "Contract"}
    ensures |a + b + c| <= 3
    ensures "Remote" in a + b + c <==> "Remote" in a
    ensures "Remote" in a + b + c ==> (a + b + c)[0] == "Remote"
    ensures ("Senior" in a + b + c <==> "Senior" in b) && ("Junior" in a + b + c <==> "Junior" in b)
      && ("Mid-Level" in a + b + c <==> "Mid-Level" in b)
    ensures ("Full-Time" in a + b + c <==> "Full-Time" in c) && ("Part-Time" in a + b + c <==> "Part-Time" in c)
      && ("Contract" in a + b + c <==> "Contract" in c)
    ensures forall x :: x in a + b + c ==> x in {"Remote", "Senior", "Junior", "Mid-Level", "Full-Time", "Part-Time", "Contract"}
  {
  }

  /** The parts, concatenated, come in group order. */
  lemma TagRanked(a: seq<string>, b: seq<string>, c: seq<string>)
    requires a == [] || a == ["Remote"]
    requires |b| <= 1 && forall x :: x in b ==> x in {"Senior", "Junior", "Mid-Level"}
    requires |c| <= 1 && forall x :: x in c ==> x in {"Full-Time", "Part-Time", "Contract"}
    ensures RankedBy(a + b + c, RowTagRank)
  {
    var s := a + b + c;
    assert RowTagRank("Remote") == 0;
    assert RowTagRank("Senior") == 1 && RowTagRank("Junior") == 1 && RowTagRank("Mid-Level") == 1;
    assert RowTagRank("Full-Time") == 2 && RowTagRank("Part-Time") == 2 && RowTagRank("Contract") == 2;
    if b != [] { assert b[0] in b; }
    if c != [] { assert c[0] in c; }
    if a != [] && b != [] && c != [] {
      assert s == ["Remote", b[0], c[0]];
    } else if a != [] && b != [] {
      assert s == ["Remote", b[0]];
    } else if a != [] && c != [] {
      assert s == ["Remote", c[0]];
    } else if b != [] && c != [] {
      assert s == [b[0], c[0]];
    }
  }

  // ---- the search endpoint's location parameter ----

  /** The location argument, "Nashville, TN" when absent; "remote" becomes "Remote", "nashville"
      and "both" become "Nashville, TN", any other value is kept. */
  function MapLocation(location: Option<string>): (r: string)
    ensures location == Some("remote") ==> r == "Remote"
    ensures location == None || location == Some("nashville") || location == Some("both") ==> r == "Nashville, TN"
    ensures location.Some? && location.value !in {"remote", "nashville", "both"} ==> r == location.value
  {
    var l := if location.Some? then location.value else "Nashville, TN";
    if l == "remote" then "Remote"
    else if l == "nashville" || l == "both" then "Nashville, TN"
    else l
  }

  /** Mapping a mapped location again changes nothing. */
  lemma MapLocationIdempotent(location: Option<string>)
    ensures MapLocation(Some(MapLocation(location))) == MapLocation(location)
  {
  }

  // ---- description truncation of the converted job ----

  /** The job description: the text of the cell, cut to its first 500 characters followed by
      "..." when longer than 500. */
  function JobDescription(row: Row): (r: string)
    ensures |Str(row.description)| <= 500 ==> r == Str(row.description)
    ensures |Str(row.description)| > 500 ==> |r| == 503 && r[..500] == Str(row.description)[..500] && r[500..] == "..."
  {
    Truncate(Str(row.description), 500)
  }
}
