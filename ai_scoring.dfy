/** The relevance scoring engine (src/lib/aiScoring.ts): six banded sub-scores for one fixed
    candidate profile, weighted, clamped to [0,100] and rounded. The weights 0.4/0.15/0.15/0.1/0.1/0.1
    and the remote multiplier 1.1 are scaled by 100, so the weighted sum is computed exactly in
    hundredths. "now" is a parameter (milliseconds since the epoch). */
module AiScoring {
  import opened Strings
  import opened JobModel
  import opened Salary

  // ---- Profile configuration ----

  const PrimarySkills: seq<string> := ["React", "JavaScript", "Python", "Next.js", "TailwindCSS"]
  const SecondarySkills: seq<string> := ["TypeScript", "Node.js", "HTML", "CSS", "Git"]
  const EmergingSkills: seq<string> := ["AI/ML", "Automation", "APIs", "AWS"]
  /** `remoteWeight` 1.1, in hundredths. */
  const RemoteWeightPercent: nat := 110
  const SalaryFloor: nat := 65000

  const SkillWeight: nat := 40
  const LocationWeight: nat := 15
  const SalaryWeight: nat := 15
  const IndustryWeight: nat := 10
  const ExperienceWeight: nat := 10
  const RecencyWeight: nat := 10

  const MsPerDay: nat := 1000 * 60 * 60 * 24

  // ---- Skill match (weight 0.4) ----

  /** `[...requirements, description].join(' ').toLowerCase()`. */
  function SkillText(requirements: seq<string>, description: string): string {
    Lower(JoinWith(requirements + [description], " "))
  }

  predicate Mentions(text: string, skill: string) {
    Contains(text, Lower(skill))
  }

  /** How many of `skills` occur, lower-cased, in `text`. */
  function CountMentioned(skills: seq<string>, text: string): (n: nat)
    ensures n <= |skills|
  {
    if skills == [] then 0
    else CountMentioned(skills[..|skills| - 1], text) + (if Mentions(text, skills[|skills| - 1]) then 1 else 0)
  }

  /** The skill sub-score of a job text: 20 per primary, 10 per secondary and 15 per emerging
      skill mentioned, +10 from 3 matches on, +10 more from 5 on, at most 100. */
  function SkillScore(text: string): (r: nat)
    ensures r <= 100
  {
    var p := CountMentioned(PrimarySkills, text);
    var s := CountMentioned(SecondarySkills, text);
    var e := CountMentioned(EmergingSkills, text);
    var total := p + s + e;
    var raw := 20 * p + 10 * s + 15 * e + (if total >= 3 then 10 else 0) + (if total >= 5 then 10 else 0);
    if raw < 100 then raw else 100
  }

  /** `calculateSkillMatch`: three passes over the skill tiers with running totals. */
  method CalculateSkillMatch(requirements: seq<string>, description: string) returns (r: nat)
    ensures r == SkillScore(SkillText(requirements, description))
    ensures r <= 100
  {
    var jobText := SkillText(requirements, description);
    var matchScore := 0;
    var primaryMatches, secondaryMatches, emergingMatches := 0, 0, 0;
    for i := 0 to |PrimarySkills|
      invariant primaryMatches == CountMentioned(PrimarySkills[..i], jobText)
      invariant matchScore == 20 * primaryMatches
    {
      CountStep(PrimarySkills, i, jobText);
      if Contains(jobText, Lower(PrimarySkills[i])) {
        matchScore := matchScore + 20;
        primaryMatches := primaryMatches + 1;
      }
    }
    for i := 0 to |SecondarySkills|
      invariant secondaryMatches == CountMentioned(SecondarySkills[..i], jobText)
      invariant matchScore == 20 * primaryMatches + 10 * secondaryMatches
    {
      CountStep(SecondarySkills, i, jobText);
      if Contains(jobText, Lower(SecondarySkills[i])) {
        matchScore := matchScore + 10;
        secondaryMatches := secondaryMatches + 1;
      }
    }
    for i := 0 to |EmergingSkills|
      invariant emergingMatches == CountMentioned(EmergingSkills[..i], jobText)
      invariant matchScore == 20 * primaryMatches + 10 * secondaryMatches + 15 * emergingMatches
    {
      CountStep(EmergingSkills, i, jobText);
      if Contains(jobText, Lower(EmergingSkills[i])) {
        matchScore := matchScore + 15;
        emergingMatches := emergingMatches + 1;
      }
    }
    CountAll(PrimarySkills, jobText);
    CountAll(SecondarySkills, jobText);
    CountAll(EmergingSkills, jobText);
    var totalMatches := primaryMatches + secondaryMatches + emergingMatches;
    if totalMatches >= 3 { matchScore := matchScore + 10; }
    if totalMatches >= 5 { matchScore := matchScore + 10; }
    r := if matchScore < 100 then matchScore else 100;
  }

  lemma CountStep(skills: seq<string>, i: nat, text: string)
    requires i < |skills|
    ensures CountMentioned(skills[..i + 1], text)
         == CountMentioned(skills[..i], text) + (if Mentions(text, skills[i]) then 1 else 0)
  {
    assert skills[..i + 1][..i] == skills[..i];
  }

  lemma CountAll(skills: seq<string>, text: string)
    ensures CountMentioned(skills[..|skills|], text) == CountMentioned(skills, text)
  {
    assert skills[..|skills|] == skills;
  }

  // ---- Location (weight 0.15) ----

  /** Remote first (100 x 1.1 = 110), then 'nashville' 95, then 'tennessee' or any 'tn' 85, else 50. */
  function LocationScore(job: Job): (r: nat)
    ensures job.isRemote ==> r == 110
    ensures !job.isRemote ==> r <= 95
  {
    var loc := Lower(job.location);
    if job.isRemote then 100 * RemoteWeightPercent / 100
    else if Contains(loc, "nashville") then 95
    else if Contains(loc, "tennessee") || Contains(loc, "tn") then 85
    else 50
  }

  // ---- Salary (weight 0.15) ----

  /** Bands on the largest number in the salary text (0 when there is none). */
  function SalaryScore(salary: string): (r: nat)
    ensures r in {100, 90, 80, 70, 50}
  {
    var maxSalary := MaxSalary(salary);
    if maxSalary >= SalaryFloor + 20000 then 100
    else if maxSalary >= SalaryFloor + 10000 then 90
    else if maxSalary >= SalaryFloor then 80
    else if maxSalary >= SalaryFloor - 5000 then 70
    else 50
  }

  // ---- Industry (weight 0.1) ----

  /** `(company + ' ' + description + ' ' + tags.join(' ')).toLowerCase()`. */
  function IndustryText(job: Job): string {
    Lower(job.company + " " + job.description + " " + JoinWith(job.tags, " "))
  }

  function IndustryScore(job: Job): (r: nat)
    ensures 50 <= r <= 100
  {
    var t := IndustryText(job);
    var base := 50
      + (if Contains(t, "tech") || Contains(t, "startup") then 20 else 0)
      + (if Contains(t, "ai") || Contains(t, "machine learning") || Contains(t, "ml") then 25 else 0)
      + (if Contains(t, "automation") then 30 else 0)
      + (if Contains(t, "remote") && job.isRemote then 15 else 0)
      + (if Contains(t, "innovation") || Contains(t, "cutting-edge") || Contains(t, "modern") then 10 else 0);
    if base < 100 then base else 100
  }

  /** `calculateIndustryScore`: a base of 50 raised by each keyword group, then capped. */
  method CalculateIndustryScore(job: Job) returns (r: nat)
    ensures r == IndustryScore(job)
    ensures 50 <= r <= 100
  {
    var jobText := IndustryText(job);
    var score := 50;
    if Contains(jobText, "tech") || Contains(jobText, "startup") { score := score + 20; }
    if Contains(jobText, "ai") || Contains(jobText, "machine learning") || Contains(jobText, "ml") { score := score + 25; }
    if Contains(jobText, "automation") { score := score + 30; }
    if Contains(jobText, "remote") && job.isRemote { score := score + 15; }
    if Contains(jobText, "innovation") || Contains(jobText, "cutting-edge") || Contains(jobText, "modern") { score := score + 10; }
    r := if score < 100 then score else 100;
  }

  // ---- Experience (weight 0.1) ----

  function ExperienceText(job: Job): string {
    Lower(job.title + " " + job.description)
  }

  predicate JuniorWords(t: string) { Contains(t, "junior") || Contains(t, "entry") || Contains(t, "associate") }
  predicate MidWords(t: string) { Contains(t, "mid") || Contains(t, "intermediate") }
  predicate SeniorWords(t: string) { Contains(t, "senior") || Contains(t, "lead") || Contains(t, "principal") }
  predicate ManagerWords(t: string) { Contains(t, "manager") || Contains(t, "director") }

  function ExperienceScore(job: Job): (r: nat)
    ensures r in {100, 90, 60, 30, 80}
  {
    var t := ExperienceText(job);
    if JuniorWords(t) then 100
    else if MidWords(t) then 90
    else if SeniorWords(t) then 60
    else if ManagerWords(t) then 30
    else 80
  }

  // ---- Recency (weight 0.1) ----

  /** `Math.floor((now - posted) / msPerDay)`; Dafny's division by a positive divisor is floor. */
  function DaysSince(posted: int, now: int): (d: int)
    ensures d * MsPerDay <= now - posted < d * MsPerDay + MsPerDay
    ensures posted <= now ==> d >= 0
  {
    (now - posted) / MsPerDay
  }

  function DaysBand(days: int): (r: nat)
    ensures 40 <= r <= 100
  {
    if days <= 1 then 100
    else if days <= 3 then 90
    else if days <= 7 then 80
    else if days <= 14 then 70
    else if days <= 30 then 60
    else 40
  }

  /** An unparseable date gives NaN days, every comparison with which is false: 40. */
  function RecencyScore(posted: Option<int>, now: int): (r: nat)
    ensures posted == None ==> r == 40
    ensures 40 <= r <= 100
  {
    match posted
    case None => 40
    case Some(t) => DaysBand(DaysSince(t, now))
  }

  // ---- Final score ----

  /** The weighted sum of the six sub-scores, in hundredths of a point. */
  function WeightedSum(job: Job, now: int): (r: nat)
    ensures r <= 10150
    ensures !job.isRemote ==> r <= 9925
  {
    SkillWeight * SkillScore(SkillText(job.requirements, job.description))
    + LocationWeight * LocationScore(job)
    + SalaryWeight * SalaryScore(job.salary)
    + IndustryWeight * IndustryScore(job)
    + ExperienceWeight * ExperienceScore(job)
    + RecencyWeight * RecencyScore(job.postedDate, now)
  }

  /** `Math.round(Math.max(0, Math.min(100, sum / 100)))` for a sum given in hundredths:
      clamp, then round half up (`Math.round` is floor(x + 0.5)). */
  function ClampRound(sum: int): (r: int)
    ensures 0 <= r <= 100
    ensures 0 <= sum <= 10000 ==> r * 100 - 50 <= sum < r * 100 + 50
  {
    var clamped := if sum < 0 then 0 else if sum > 10000 then 10000 else sum;
    (clamped + 50) / 100
  }

  function RelevanceScore(job: Job, now: int): (r: int)
    ensures 0 <= r <= 100
  {
    ClampRound(WeightedSum(job, now))
  }

  /** `calculateRelevanceScore`: accumulates the weighted sub-scores one by one. */
  method CalculateRelevanceScore(job: Job, now: int) returns (r: int)
    ensures r == RelevanceScore(job, now)
    ensures 0 <= r <= 100
  {
    var score := 0;
    var skillScore := CalculateSkillMatch(job.requirements, job.description);
    score := score + skillScore * SkillWeight;
    var locationScore := LocationScore(job);
    score := score + locationScore * LocationWeight;
    var salaryScore := SalaryScore(job.salary);
    score := score + salaryScore * SalaryWeight;
    var industryScore := CalculateIndustryScore(job);
    score := score + industryScore * IndustryWeight;
    var experienceScore := ExperienceScore(job);
    score := score + experienceScore * ExperienceWeight;
    var recencyScore := RecencyScore(job.postedDate, now);
    score := score + recencyScore * RecencyWeight;
    r := ClampRound(score);
  }

  // ---- Properties ----

  /** Every profile skill is non-empty and contains no space. */
  lemma SkillsAreWords()
    ensures forall i :: 0 <= i < |PrimarySkills| ==> PrimarySkills[i] != [] && ' ' !in PrimarySkills[i]
    ensures forall i :: 0 <= i < |SecondarySkills| ==> SecondarySkills[i] != [] && ' ' !in SecondarySkills[i]
    ensures forall i :: 0 <= i < |EmergingSkills| ==> EmergingSkills[i] != [] && ' ' !in EmergingSkills[i]
  {
  }

  /** A skill mentioned somewhere in the text is still mentioned once another requirement is
      appended: the texts differ by an inserted `" " + req`, and a skill holds no space. */
  lemma MentionKeptByNewRequirement(reqs: seq<string>, req: string, desc: string, skill: string)
    requires Mentions(SkillText(reqs, desc), skill)
    ensures Mentions(SkillText(reqs + [req], desc), skill) || ' ' in skill
  {
    var p := Lower(skill);
    if ' ' !in skill {
      LowerKeepsNoSpace(skill);
      var longer := (reqs + [req]) + [desc];
      assert longer[..|longer| - 1] == reqs + [req];
      if reqs == [] {
        assert reqs + [desc] == [desc];
        assert JoinWith(reqs + [desc], " ") == desc;
        assert [req][..0] == [];
        assert JoinWith(reqs + [req], " ") == req;
        LowerAppend(req + " ", desc);
        ContainsSuffix(Lower(req + " "), Lower(desc), p);
      } else {
        var j := JoinWith(reqs, " ");
        assert (reqs + [desc])[..|reqs|] == reqs;
        assert JoinWith(reqs + [desc], " ") == j + " " + desc;
        assert (reqs + [req])[..|reqs|] == reqs;
        assert JoinWith(reqs + [req], " ") == j + " " + req;
        LowerAppend(j + " ", desc);
        LowerAppend(j, " ");
        assert Lower(j + " " + desc) == Lower(j) + " " + Lower(desc);
        ContainsAcrossSpace(Lower(j), Lower(desc), p);
        var mid := " " + req + " ";
        assert j + " " + req + " " + desc == j + mid + desc;
        LowerAppend(j + mid, desc);
        LowerAppend(j, mid);
        if Contains(Lower(j), p) {
          ContainsPrefix(Lower(j), Lower(mid) + Lower(desc), p);
          assert Lower(j) + (Lower(mid) + Lower(desc)) == Lower(j + mid + desc);
        } else {
          ContainsSuffix(Lower(j) + Lower(mid), Lower(desc), p);
        }
      }
    }
  }

  /** If every skill of `skills` mentioned in `t1` is mentioned in `t2`, `t2` counts at least as many. */
  lemma {:induction false} CountMentionedMonotone(skills: seq<string>, t1: string, t2: string)
    requires forall i :: 0 <= i < |skills| && Mentions(t1, skills[i]) ==> Mentions(t2, skills[i])
    ensures CountMentioned(skills, t1) <= CountMentioned(skills, t2)
  {
    if skills != [] {
      var init := skills[..|skills| - 1];
      assert forall i :: 0 <= i < |init| ==> init[i] == skills[i];
      CountMentionedMonotone(init, t1, t2);
    }
  }

  lemma TierCountKept(skills: seq<string>, reqs: seq<string>, req: string, desc: string)
    requires forall i :: 0 <= i < |skills| ==> ' ' !in skills[i]
    ensures CountMentioned(skills, SkillText(reqs, desc)) <= CountMentioned(skills, SkillText(reqs + [req], desc))
  {
    forall i | 0 <= i < |skills| && Mentions(SkillText(reqs, desc), skills[i])
      ensures Mentions(SkillText(reqs + [req], desc), skills[i])
    {
      MentionKeptByNewRequirement(reqs, req, desc, skills[i]);
    }
    CountMentionedMonotone(skills, SkillText(reqs, desc), SkillText(reqs + [req], desc));
  }

  /** The skill sub-score never drops when every tier count grows or stays. */
  lemma SkillScoreMonotone(t1: string, t2: string)
    requires CountMentioned(PrimarySkills, t1) <= CountMentioned(PrimarySkills, t2)
    requires CountMentioned(SecondarySkills, t1) <= CountMentioned(SecondarySkills, t2)
    requires CountMentioned(EmergingSkills, t1) <= CountMentioned(EmergingSkills, t2)
    ensures SkillScore(t1) <= SkillScore(t2)
  {
  }

  lemma ClampRoundMonotone(a: int, b: int)
    requires a <= b
    ensures ClampRound(a) <= ClampRound(b)
  {
  }

  /** Two jobs that differ at most in their requirements differ in weight only through the skill sub-score. */
  lemma WeightedSumBySkill(job: Job, job': Job, now: int)
    requires job' == job.(requirements := job'.requirements)
    requires SkillScore(SkillText(job.requirements, job.description)) <= SkillScore(SkillText(job'.requirements, job'.description))
    ensures WeightedSum(job, now) <= WeightedSum(job', now)
  {
    LocationIgnoresRequirements(job, job');
    IndustryIgnoresRequirements(job, job');
    ExperienceIgnoresRequirements(job, job');
  }

  lemma LocationIgnoresRequirements(job: Job, job': Job)
    requires job' == job.(requirements := job'.requirements)
    ensures LocationScore(job) == LocationScore(job')
  {
  }

  lemma IndustryIgnoresRequirements(job: Job, job': Job)
    requires job' == job.(requirements := job'.requirements)
    ensures IndustryScore(job) == IndustryScore(job')
  {
  }

  lemma ExperienceIgnoresRequirements(job: Job, job': Job)
    requires job' == job.(requirements := job'.requirements)
    ensures ExperienceScore(job) == ExperienceScore(job')
  {
  }

  /** Requirements feed only the skill sub-score, so appending one never lowers the final score. */
  lemma NewRequirementNeverLowersScore(job: Job, req: string, now: int)
    ensures RelevanceScore(job.(requirements := job.requirements + [req]), now) >= RelevanceScore(job, now)
  {
    var job' := job.(requirements := job.requirements + [req]);
    SkillsAreWords();
    TierCountKept(PrimarySkills, job.requirements, req, job.description);
    TierCountKept(SecondarySkills, job.requirements, req, job.description);
    TierCountKept(EmergingSkills, job.requirements, req, job.description);
    SkillScoreMonotone(SkillText(job.requirements, job.description), SkillText(job'.requirements, job.description));
    WeightedSumBySkill(job, job', now);
    ClampRoundMonotone(WeightedSum(job, now), WeightedSum(job', now));
  }

  /** A job with no requirements and no description matches no skill. */
  lemma EmptyJobTextScoresNoSkill()
    ensures SkillScore(SkillText([], "")) == 0
  {
    assert SkillText([], "") == "";
    SkillsAreWords();
    forall skills: seq<string> | skills == PrimarySkills || skills == SecondarySkills || skills == EmergingSkills
      ensures CountMentioned(skills, "") == 0
    {
      NothingMentionedInEmpty(skills);
    }
  }

  lemma {:induction false} NothingMentionedInEmpty(skills: seq<string>)
    requires forall i :: 0 <= i < |skills| ==> skills[i] != []
    ensures CountMentioned(skills, "") == 0
  {
    if skills != [] {
      var init := skills[..|skills| - 1];
      assert forall i :: 0 <= i < |init| ==> init[i] == skills[i];
      NothingMentionedInEmpty(init);
      var p := Lower(skills[|skills| - 1]);
      assert |p| > 0;
      assert !Contains("", p) by {
        forall i | 0 <= i <= 0 ensures !(p <= ""[i..]) { }
      }
    }
  }

  /** Location: a remote job scores 110 whatever its location text; otherwise the text decides. */
  lemma LocationBands(job: Job)
    ensures job.isRemote ==> LocationScore(job) == 110
    ensures var loc := Lower(job.location);
      !job.isRemote ==>
        && (LocationScore(job) == 95 <==> Contains(loc, "nashville"))
        && (LocationScore(job) == 85 <==>
              !Contains(loc, "nashville") && (Contains(loc, "tennessee") || Contains(loc, "tn")))
        && (LocationScore(job) == 50 <==>
              !Contains(loc, "nashville") && !Contains(loc, "tennessee") && !Contains(loc, "tn"))
  {
  }

  /** Salary: a larger maximum never scores lower, and the bands sit at 85000/75000/65000/60000. */
  lemma SalaryScoreMonotone(a: string, b: string)
    requires MaxSalary(a) <= MaxSalary(b)
    ensures SalaryScore(a) <= SalaryScore(b)
  {
  }

  lemma SalaryBands(salary: string)
    ensures SalaryScore(salary) == 100 <==> MaxSalary(salary) >= 85000
    ensures SalaryScore(salary) >= 90 <==> MaxSalary(salary) >= 75000
    ensures SalaryScore(salary) >= 80 <==> MaxSalary(salary) >= 65000
    ensures SalaryScore(salary) == 50 <==> MaxSalary(salary) < 60000
  {
  }

  /** Experience: a junior marker in the title or the description wins over every other marker;
      a senior marker decides only when no junior or mid marker occurs anywhere. */
  lemma ExperiencePriority(job: Job)
    ensures JuniorWords(Lower(job.title)) || JuniorWords(Lower(job.description)) ==> ExperienceScore(job) == 100
    ensures ExperienceScore(job) == 100 <==> JuniorWords(ExperienceText(job))
    ensures ExperienceScore(job) == 90 <==> !JuniorWords(ExperienceText(job)) && MidWords(ExperienceText(job))
    ensures ExperienceScore(job) == 60 <==>
      !JuniorWords(ExperienceText(job)) && !MidWords(ExperienceText(job)) && SeniorWords(ExperienceText(job))
    ensures ExperienceScore(job) == 80 <==>
      !JuniorWords(ExperienceText(job)) && !MidWords(ExperienceText(job)) && !SeniorWords(ExperienceText(job))
      && !ManagerWords(ExperienceText(job))
    ensures ExperienceScore(job) == 30 <==>
      !JuniorWords(ExperienceText(job)) && !MidWords(ExperienceText(job)) && !SeniorWords(ExperienceText(job))
      && ManagerWords(ExperienceText(job))
  {
    ExperienceTextKeeps(job, "junior");
    ExperienceTextKeeps(job, "entry");
    ExperienceTextKeeps(job, "associate");
  }

  /** A word found in the title or in the description is found in the joined experience text. */
  lemma ExperienceTextKeeps(job: Job, w: string)
    ensures Contains(Lower(job.title), w) || Contains(Lower(job.description), w) ==> Contains(ExperienceText(job), w)
  {
    var t, d := Lower(job.title), Lower(job.description);
    LowerAppend(job.title, " " + job.description);
    LowerAppend(job.title + " ", job.description);
    assert ExperienceText(job) == t + Lower(" " + job.description);
    assert ExperienceText(job) == Lower(job.title + " ") + d;
    if Contains(t, w) { ContainsPrefix(t, Lower(" " + job.description), w); }
    if Contains(d, w) { ContainsSuffix(Lower(job.title + " "), d, w); }
  }

  /** Floor division by a positive divisor is monotone; used to compare the ages of two dates. */
  lemma DivMonotone(a: int, b: int, d: int)
    requires a <= b && d > 0
    ensures a / d <= b / d
  {
    var qa, qb := a / d, b / d;
    if qa > qb {
      MulMonotone(d, qb + 1, qa);
      assert false;
    }
  }

  /** Multiplying by a positive factor keeps the order; the step DivMonotone needs. */
  lemma MulMonotone(d: int, x: int, y: int)
    requires d > 0 && x <= y
    ensures d * x <= d * y
  {
  }

  /** Recency is non-increasing in age: of two dates the older never scores higher. */
  lemma RecencyNonIncreasing(older: int, newer: int, now: int)
    requires older <= newer
    ensures RecencyScore(Some(older), now) <= RecencyScore(Some(newer), now)
  {
    DivMonotone(now - newer, now - older, MsPerDay);
  }

  /** Recency bands: at most one day old scores 100, more than thirty days 40. */
  lemma RecencyBands(posted: int, now: int)
    ensures now - posted < 2 * MsPerDay ==> RecencyScore(Some(posted), now) == 100
    ensures now - posted >= 31 * MsPerDay ==> RecencyScore(Some(posted), now) == 40
  {
  }

  /** Every job scores at least 27: the lowest sub-scores are location 50, salary 50, industry 50,
      experience 30 and recency 40. Only a remote job can reach the clamp at 100. */
  lemma RelevanceScoreRange(job: Job, now: int)
    ensures 27 <= RelevanceScore(job, now) <= 100
    ensures WeightedSum(job, now) > 10000 ==> job.isRemote
  {
    WeightedSumRange(job, now);
  }

  lemma WeightedSumRange(job: Job, now: int)
    ensures 2700 <= WeightedSum(job, now)
    ensures !job.isRemote ==> WeightedSum(job, now) <= 9925
  {
    var sk, lo := SkillScore(SkillText(job.requirements, job.description)), LocationScore(job);
    var sa, ind := SalaryScore(job.salary), IndustryScore(job);
    var ex, re := ExperienceScore(job), RecencyScore(job.postedDate, now);
    assert 30 <= ex <= 100 && 50 <= sa <= 100 && 50 <= lo;
  }
}
