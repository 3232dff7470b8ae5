/** The text helpers of the LinkedIn scraper (python-backend/linkedin_scraper.py): title and
    description cleaning, skill extraction, skills generated from the search term, and the
    relevance score of a LinkedIn posting. */
module LinkedinScraper {
  import opened Strings
  import opened JobModel
  import opened PyText

  // ---- clean_job_title: `re.sub(r'\s+at\s+.+$', '', title).strip()` ----

  /** `.+$` matches all of `u`: one or more characters other than a line feed, running to the end
      of the text or to a line feed that ends the text. */
  predicate LineRest(u: string) {
    |u| >= 1
    && (('\n' !in u) || (|u| >= 2 && u[|u| - 1] == '\n' && '\n' !in u[..|u| - 1]))
  }

  /** `\s+.+$` matches all of `t`: a non-empty run of whitespace, then the rest of the line. */
  predicate SpacesThenLine(t: string)
    decreases |t|
  {
    |t| >= 1 && IsSpace(t[0]) && (LineRest(t[1..]) || SpacesThenLine(t[1..]))
  }

  /** `\s+at\s+.+$` matches starting at index `i`. The first `\s+` takes every whitespace character
      from `i` on, since giving one back would put whitespace where the 'a' must be. */
  predicate AtSuffixAt(s: string, i: nat) {
    i < |s| && IsSpace(s[i])
    && var j := i + LeadingSpaces(s[i..]);
    j + 2 <= |s| && s[j..j + 2] == "at" && SpacesThenLine(s[j + 2..])
  }

  /** The leftmost index from `from` on where the suffix pattern matches, or |s|. */
  function FirstAtSuffix(s: string, from: nat): (i: nat)
    requires from <= |s|
    ensures from <= i <= |s|
    ensures i < |s| ==> AtSuffixAt(s, i)
    ensures forall k :: from <= k < i ==> !AtSuffixAt(s, k)
    decreases |s| - from
  {
    if from == |s| then |s|
    else if AtSuffixAt(s, from) then from
    else FirstAtSuffix(s, from + 1)
  }

  /** The title with an " at Company" suffix removed and surrounding whitespace stripped. A match
      ends at the end of the title or before a line feed that ends it, and nothing after it can
      match again. */
  function CleanJobTitle(title: string): (r: string)
    ensures r == [] || (!IsSpace(r[0]) && !IsSpace(r[|r| - 1]))
    ensures FirstAtSuffix(title, 0) == |title| ==> r == Strip(title)
    ensures FirstAtSuffix(title, 0) < |title| ==> r == Strip(title[..FirstAtSuffix(title, 0)])
  {
    var i := FirstAtSuffix(title, 0);
    if i == |title| then Strip(title)
    else
      StripWithoutMatch(title, i);
      Strip(WithoutMatch(title, i))
  }

  /** The title with the match from `i` removed: the match ends before a final line feed, which is kept. */
  function WithoutMatch(title: string, i: nat): string
    requires i < |title|
  {
    var e := if title[|title| - 1] == '\n' then |title| - 1 else |title|;
    title[..i] + title[e..]
  }

  lemma StripWithoutMatch(title: string, i: nat)
    requires i < |title|
    ensures Strip(WithoutMatch(title, i)) == Strip(title[..i])
  {
    if title[|title| - 1] == '\n' {
      assert WithoutMatch(title, i) == title[..i] + ['\n'];
      StripTrailingSpace(title[..i], '\n');
    } else {
      assert WithoutMatch(title, i) == title[..i];
    }
  }

  /** The suffix is removed from the first whitespace before an "at" that is followed by whitespace
      and more text on the same line. */
  lemma CleanJobTitleExample()
    ensures CleanJobTitle("React Developer at Acme") == "React Developer"
  {
    var s := "React Developer at Acme";
    ExampleFirst(s);
    assert s[..15] == "React Developer";
    ExampleStrip("React Developer");
  }

  /** The leftmost suffix match in the example title starts at the space before "at". */
  lemma ExampleFirst(s: string)
    requires s == "React Developer at Acme"
    ensures FirstAtSuffix(s, 0) == 15
  {
    ExampleMatch(s);
    ExampleNoEarlierMatch(s);
    var i := FirstAtSuffix(s, 0);
    assert !(i < 15) && !(15 < i);
  }

  /** The text before the suffix has no surrounding whitespace, so strip keeps it. */
  lemma ExampleStrip(p: string)
    requires p == "React Developer"
    ensures Strip(p) == p
  {
    LeadingSpacesUnique(p, 0);
    assert p[0..] == p;
    assert TrailingSpaces(p) == 0;
  }

  /** A suffix match starts at position 15 of the example title. */
  lemma ExampleMatch(s: string)
    requires s == "React Developer at Acme"
    ensures AtSuffixAt(s, 15)
  {
    ExampleSpace(s);
    ExampleAt(s);
    ExampleLine(s);
  }

  /** Position 15 of the example title is a run of exactly one whitespace character. */
  lemma ExampleSpace(s: string)
    requires s == "React Developer at Acme"
    ensures IsSpace(s[15]) && LeadingSpaces(s[15..]) == 1
  {
    var u := s[15..];
    assert u[0] == ' ' && u[1] == 'a';
    LeadingSpacesUnique(u, 1);
  }

  /** The word "at" follows that space. */
  lemma ExampleAt(s: string)
    requires s == "React Developer at Acme"
    ensures s[16..18] == "at"
  {
    var at := s[16..18];
    assert at[0] == 'a' && at[1] == 't';
  }

  /** After "at" come whitespace and the rest of the line, "Acme". */
  lemma ExampleLine(s: string)
    requires s == "React Developer at Acme"
    ensures SpacesThenLine(s[18..])
  {
    var v := s[18..];
    assert v[0] == ' ';
    assert v[1..] == "Acme";
    assert LineRest("Acme");
  }

  /** No suffix match starts before position 15 of the example title. */
  lemma ExampleNoEarlierMatch(s: string)
    requires s == "React Developer at Acme"
    ensures forall k :: 0 <= k < 15 ==> !AtSuffixAt(s, k)
  {
    ExampleOneEarlierSpace(s);
    ExampleNotAtFive(s);
  }

  /** Before position 15 the only whitespace in the example title is at position 5. */
  lemma ExampleOneEarlierSpace(s: string)
    requires s == "React Developer at Acme"
    ensures forall k :: 0 <= k < 15 && k != 5 ==> !IsSpace(s[k])
  {
  }

  /** The space at position 5 is followed by "D", so no match starts there. */
  lemma ExampleNotAtFive(s: string)
    requires s == "React Developer at Acme"
    ensures !AtSuffixAt(s, 5)
  {
    assert s[5] == ' ' && s[6] == 'D';
    NoAtAfterSingleSpace(s, 5);
  }

  /** A single whitespace character followed by something other than 'a' starts no match. */
  lemma NoAtAfterSingleSpace(s: string, i: nat)
    requires i + 1 < |s| && s[i] == ' ' && s[i + 1] != 'a' && !IsSpace(s[i + 1])
    ensures !AtSuffixAt(s, i)
  {
    var u := s[i..];
    assert u[0] == s[i] && u[1] == s[i + 1];
    LeadingSpacesUnique(u, 1);
    if i + 3 <= |s| {
      assert s[i + 1..i + 3][0] == s[i + 1];
    }
  }

  // ---- clean_html_description ----

  /** An empty or missing description gives ""; otherwise the markup tags are removed and the
      whitespace is collapsed to single spaces. */
  function CleanHtmlDescription(text: Option<string>): (r: string)
    ensures SingleSpaced(r)
    ensures NoTag(r)
    ensures text == None || text == Some("") ==> r == ""
    ensures text.Some? ==> Words(r) == Words(StripTags(text.value))
    ensures text.Some? ==> r == CleanHtml(text.value)
  {
    match text
    case None => ""
    case Some(t) => if t == "" then "" else CleanHtml(t)
  }

  // ---- extract_skills_from_text ----

  const TextSkills: seq<string> :=
    ["React", "JavaScript", "Python", "TypeScript", "Node.js", "CSS", "HTML", "Git", "AWS"]

  /** The first six of the listed skills whose lower-cased name occurs in the lower-cased text; a
      missing or empty text gives none. */
  method ExtractSkillsFromText(text: Option<string>) returns (r: seq<string>)
    ensures var lowered := if text.Some? then Lower(text.value) else "";
      && r == PyTake(FoundIn(TextSkills, lowered), 6)
      && |r| <= 6
      && (forall x :: x in r ==> x in TextSkills && Contains(lowered, Lower(x)))
      && (|FoundIn(TextSkills, lowered)| <= 6 ==>
            forall x :: x in TextSkills && Contains(lowered, Lower(x)) ==> x in r)
    ensures text == None || text == Some("") ==> r == []
  {
    var lowered := if text.Some? then Lower(text.value) else "";
    var found := CollectFound(TextSkills, lowered);
    r := PyTake(found, 6);
    FirstFound(TextSkills, lowered, 6);
    if lowered == "" {
      NothingFoundInEmpty(TextSkills);
    }
  }

  // ---- generate_linkedin_skills ----

  /** The skill map in its insertion order, which is the order the dictionary is iterated in. */
  const SkillMap: seq<(string, seq<string>)> := [
    ("react", ["React", "JavaScript", "TypeScript", "CSS", "HTML"]),
    ("javascript", ["JavaScript", "React", "Node.js", "TypeScript", "CSS"]),
    ("python", ["Python", "Django", "Flask", "SQL", "API"]),
    ("frontend", ["React", "JavaScript", "CSS", "HTML", "TypeScript"]),
    ("backend", ["Python", "Node.js", "SQL", "API", "AWS"])
  ]

  const DefaultSkills: seq<string> := ["JavaScript", "React", "CSS", "HTML"]

  /** The skills of the first key from index `k` on (in map order) that occurs in `searchLower`,
      or the default list when none does. */
  function SkillsFrom(searchLower: string, k: nat): (r: seq<string>)
    requires k <= |SkillMap|
    ensures r != []
    ensures forall j :: (k <= j < |SkillMap| && Contains(searchLower, SkillMap[j].0)
      && forall i :: k <= i < j ==> !Contains(searchLower, SkillMap[i].0)) ==> r == SkillMap[j].1
    ensures (forall j :: k <= j < |SkillMap| ==> !Contains(searchLower, SkillMap[j].0)) ==> r == DefaultSkills
    decreases |SkillMap| - k
  {
    if k == |SkillMap| then DefaultSkills
    else if Contains(searchLower, SkillMap[k].0) then SkillMap[k].1
    else SkillsFrom(searchLower, k + 1)
  }

  /** The skills of the first key (in map order) that occurs in the lower-cased search term, or
      the default list when none occurs. */
  function GenerateLinkedinSkills(searchTerm: string): (r: seq<string>)
    ensures r != []
    ensures forall k ::
      (0 <= k < |SkillMap| && Contains(Lower(searchTerm), SkillMap[k].0)
       && forall j :: 0 <= j < k ==> !Contains(Lower(searchTerm), SkillMap[j].0))
      ==> r == SkillMap[k].1
    ensures (forall k :: 0 <= k < |SkillMap| ==> !Contains(Lower(searchTerm), SkillMap[k].0))
      ==> r == DefaultSkills
  {
    SkillsFrom(Lower(searchTerm), 0)
  }

  // ---- calculate_linkedin_relevance ----

  const SeniorWords: seq<string> := ["senior", "lead", "principal"]
  const JuniorWords: seq<string> := ["junior", "entry"]
  const TechWords: seq<string> := ["react", "javascript", "frontend", "developer"]

  /** The relevance of a LinkedIn posting, from its title alone. The score takes six values and
      each one reads back what the title said: 75 for an empty or missing title; a senior marker
      exactly when the score is 85 or 93; a junior marker without a senior one exactly when it is
      80 or 88; a front-end keyword exactly when it is 83, 88 or 93. The cap of 95 is never
      reached. */
  function LinkedinRelevance(title: Option<string>): (r: int)
    ensures r in {75, 80, 83, 85, 88, 93}
    ensures title == None || title == Some("") ==> r == 75
    ensures title.Some? && title.value != "" ==>
      var t := Lower(title.value);
      && (r in {85, 93} <==> ContainsAny(t, SeniorWords))
      && (r in {80, 88} <==> !ContainsAny(t, SeniorWords) && ContainsAny(t, JuniorWords))
      && (r in {83, 88, 93} <==> ContainsAny(t, TechWords))
  {
    var base := 75;
    if title == None || title == Some("") then base
    else
      var t := Lower(title.value);
      var level := if ContainsAny(t, SeniorWords) then 10 else if ContainsAny(t, JuniorWords) then 5 else 0;
      var tech := if ContainsAny(t, TechWords) then 8 else 0;
      if base + level + tech < 95 then base + level + tech else 95
  }

  /** The source's step-by-step accumulation of the score: base 75, 10 for a senior marker or
      else 5 for a junior one, 8 for a front-end keyword, capped at 95. The description is not
      consulted. */
  method CalculateLinkedinRelevance(title: Option<string>, description: Option<string>) returns (score: int)
    ensures score == LinkedinRelevance(title)
  {
    score := 75;
    if title.Some? && title.value != "" {
      var titleLower := Lower(title.value);
      if ContainsAny(titleLower, SeniorWords) {
        score := score + 10;
      } else if ContainsAny(titleLower, JuniorWords) {
        score := score + 5;
      }
      if ContainsAny(titleLower, TechWords) {
        score := score + 8;
      }
    }
    if score > 95 {
      score := 95;
    }
  }
}
