# JobSeek core, modelled in Dafny

JobSeek is a job aggregator for one developer's search. A Next.js front end lists job postings.
It filters, sorts and pages them, counts them by application status, and scores each one
against a fixed candidate profile (skills, location, salary, industry, seniority, recency).
A Python backend collects postings from job boards:

- LinkedIn and Indeed feeds;
- the RemoteOK JSON API;
- a JobSpy data frame.

For each posting the backend turns the raw text into the common job record. Along the way it
cleans titles and HTML, picks out skills, requirements and tags, formats salaries and gives a
heuristic relevance score.

This project models both halves on values:

- Front end:
  - `AiScoring`: the profile score.
  - `JobUtils` and `JobSort`: filtering, stable sorting, statistics and status updates.
  - `JobApiService`: the backend client with its fallback to local jobs.
  - `JobsRoute`: the paging API route.
  - `UseJobs`: the React hook, modelled as a class whose methods update its state.
- Backend:
  - `LinkedinScraper`
  - `IndeedScraper`
  - `BackendApp`: the JobSpy conversion helpers.
  - `SimpleScraper`: the RemoteOK scraper.
- Shared modules:
  - `Strings`
  - `Salary`: the JavaScript salary-number extraction.
  - `PyText`: Python slicing, comma grouping, tag stripping and skill scans.
  - `SalaryPattern`: a backtracking matcher for the Indeed salary regular expressions.
  - `JsArray`: `Array.prototype.slice`.

Loops that accumulate (the `score +=` steps, the skill and tag lists) are methods with loop
invariants, each proved equal to a specification function. Loops that return at their first
match are recursive functions over the remaining candidates:

- `BackendApp.RemoteFrom` for the keyword scan (python-backend/app.py:113-115);
- `LinkedinScraper.SkillsFrom` for the skill-map scan (python-backend/linkedin_scraper.py:250-252);
- `IndeedScraper.SalaryFrom` for the salary patterns (python-backend/indeed_scraper.py:121-124).

The pure helpers are functions. Lemmas then state what the source
promises about those functions: ranges, priority orders, round trips, permutation, stability
and idempotence.

Amounts the source computes in floating point are scaled to integers:

- The profile score's weights (0.4, 0.15, 0.1) become hundredths.
- `Math.round(Math.max(0, Math.min(100, x)))` is computed on the scaled sum.

Dates enter as numbers:

- The front end's date parsing becomes an `Option<int>` of milliseconds, with NaN as `None`.
- The backend's `(now - date).days` becomes an `Option<int>` of whole days.
- The current time is a parameter.

## Model

| member | source | states |
|---|---|---|
| AiScoring.CountMentioned | src/lib/aiScoring.ts:59-81 | the number of profile skills found in the job text is at most the number of skills |
| AiScoring.SkillScore | src/lib/aiScoring.ts:50-89 | the skill score (20/10/15 points per tier, +10 at three and at five matches) never exceeds 100 |
| AiScoring.CalculateSkillMatch | src/lib/aiScoring.ts:50-89 | the accumulating loops compute exactly SkillScore of the lower-cased requirements-and-description text, at most 100 |
| AiScoring.LocationScore | src/lib/aiScoring.ts:91-96 | a remote job scores 110 (100 times the 1.1 remote weight); any other job at most 95 |
| AiScoring.LocationBands | src/lib/aiScoring.ts:91-96 | for a job that is not remote: 95 exactly when the location mentions Nashville, 85 exactly when it mentions Tennessee or "tn" but not Nashville, 50 exactly when it mentions none of them |
| AiScoring.SalaryScore | src/lib/aiScoring.ts:98-108 | the salary score is one of 100, 90, 80, 70, 50 |
| AiScoring.SalaryBands | src/lib/aiScoring.ts:103-107 | each band holds exactly when the largest salary number reaches 85000, 75000, 65000 (or is below 60000 for 50) |
| AiScoring.SalaryScoreMonotone | src/lib/aiScoring.ts:98-108 | a larger largest salary number never scores lower |
| AiScoring.IndustryScore | src/lib/aiScoring.ts:110-125 | the industry score lies between the base 50 and the cap 100 |
| AiScoring.CalculateIndustryScore | src/lib/aiScoring.ts:110-125 | the `score +=` steps compute IndustryScore, within 50..100 |
| AiScoring.ExperienceScore | src/lib/aiScoring.ts:127-137 | the experience score is one of 100, 90, 60, 30, 80 |
| AiScoring.ExperiencePriority | src/lib/aiScoring.ts:131-136 | the first branch that applies decides: 100 exactly when junior words occur (in particular in the title or description alone); 90 exactly when mid words occur without junior ones; 60 exactly when senior words occur without junior or mid words; 30 exactly when manager words occur without the other three; 80 exactly when no level word occurs |
| AiScoring.ExperienceTextKeeps | src/lib/aiScoring.ts:128 | a word found in the lower-cased title or description is found in the joined "title description" text |
| AiScoring.DaysBand | src/lib/aiScoring.ts:144-149 | the recency band of a day count lies in 40..100 |
| AiScoring.RecencyScore | src/lib/aiScoring.ts:139-149 | an unparseable date scores 40, and every score lies in 40..100 |
| AiScoring.RecencyNonIncreasing | src/lib/aiScoring.ts:139-149 | a later posting date never scores lower |
| AiScoring.RecencyBands | src/lib/aiScoring.ts:142-149 | under two days old scores 100; 31 or more days old scores 40 |
| AiScoring.ClampRound | src/lib/aiScoring.ts:47 | the clamped, rounded score lies in 0..100 and is within half a point of an in-range weighted sum |
| AiScoring.ClampRoundMonotone | src/lib/aiScoring.ts:47 | clamping and rounding preserves order |
| AiScoring.RelevanceScore | src/lib/aiScoring.ts:19-48 | the overall score lies in 0..100 |
| AiScoring.CalculateRelevanceScore | src/lib/aiScoring.ts:19-48 | the six weighted `score +=` steps compute RelevanceScore, in 0..100 |
| AiScoring.RelevanceScoreRange | src/lib/aiScoring.ts:19-48 | every job scores at least 27, and only a remote job can push the weighted sum past 100 |
| AiScoring.WeightedSumRange | src/lib/aiScoring.ts:19-48 | the weighted sum is at least 27 points, and at most 99.25 points for a job that is not remote |
| AiScoring.WeightedSum | src/lib/aiScoring.ts:19-45 | the six weighted sub-scores add up to at most 101.5 points, and to at most 99.25 points for a job that is not remote |
| AiScoring.DaysSince | src/lib/aiScoring.ts:142 | `Math.floor` of the age in days: the whole number of days d with d days at most the age and d+1 days more; never negative for a date not in the future |
| AiScoring.SkillsAreWords | src/lib/aiScoring.ts:4-17 | every profile skill is a non-empty word without spaces |
| AiScoring.MentionKeptByNewRequirement | src/lib/aiScoring.ts:52 | a skill without spaces found in the joined text is still found after another requirement is added |
| AiScoring.CountMentionedMonotone | src/lib/aiScoring.ts:59-81 | a text mentioning every skill another text mentions counts at least as many |
| AiScoring.TierCountKept | src/lib/aiScoring.ts:52-81 | adding a requirement never lowers a tier's match count |
| AiScoring.SkillScoreMonotone | src/lib/aiScoring.ts:54-88 | no fewer matches in every tier never gives a lower skill score |
| AiScoring.WeightedSumBySkill | src/lib/aiScoring.ts:19-48 | with everything else fixed, a higher skill score never lowers the weighted sum |
| AiScoring.NewRequirementNeverLowersScore | src/lib/aiScoring.ts:19-89 | adding a requirement to a job never lowers its relevance score |
| AiScoring.EmptyJobTextScoresNoSkill | src/lib/aiScoring.ts:50-89 | a job with no requirements and an empty description has skill score 0 |
| AiScoring.NothingMentionedInEmpty | src/lib/aiScoring.ts:59-81 | no non-empty skill occurs in the empty text |
| JobSort.ParseSortKey | src/lib/jobUtils.ts:40-57 | only "relevance", "date", "salary" and "company" select an order; any other value leaves the order alone |
| JobSort.PrecedesIrreflexive | src/lib/jobUtils.ts:40-57 | no job comes strictly before itself under any of the four comparators |
| JobSort.PrecedesTransitive | src/lib/jobUtils.ts:40-57 | each comparator's strict order is transitive |
| JobSort.PrecedesComparable | src/lib/jobUtils.ts:40-57 | each comparator is a strict weak order, so the stable sort is well defined |
| JobSort.InsertPermutation | src/lib/jobUtils.ts:40-57 | inserting one job adds exactly that job to the multiset |
| JobSort.SortPermutation | src/lib/jobUtils.ts:40-57 | sorting returns a permutation of its input |
| JobSort.InsertSorted | src/lib/jobUtils.ts:40-57 | inserting into a sorted sequence keeps it sorted |
| JobSort.SortSorted | src/lib/jobUtils.ts:40-57 | the sorted result has no job preceding one placed before it |
| JobSort.TiedWithAppend | src/lib/jobUtils.ts:40-57 | the jobs tied with a given job split over concatenation |
| JobSort.NoneTied | src/lib/jobUtils.ts:40-57 | a sequence with no job tied to e yields no tied jobs |
| JobSort.TiedNoneAfter | src/lib/jobUtils.ts:40-57 | a job that precedes the head of a sorted sequence has no tie inside it |
| JobSort.InsertTied | src/lib/jobUtils.ts:40-57 | insertion places a job after all the jobs it is tied with |
| JobSort.SortStable | src/lib/jobUtils.ts:40-57 | stability: tied jobs keep their input order |
| JobSort.InsertLast | src/lib/jobUtils.ts:40-57 | a job preceding none of a sequence is inserted at its end |
| JobSort.SortOfSorted | src/lib/jobUtils.ts:40-57 | sorting an already sorted sequence changes nothing |
| Salary.DigitRun | src/lib/jobUtils.ts:27 | the leading run of digits, as `parseInt` reads it: all digits, followed by a non-digit or the end |
| Salary.RemoveFirstComma | src/lib/jobUtils.ts:27 | `replace(',', '')` leaves a text without a comma unchanged |
| Salary.MatchTokens | src/lib/jobUtils.ts:27 | every match of `/\d+,?\d*/g` starts with a digit, and a text without digits has no match |
| Salary.SalaryNumbers | src/lib/jobUtils.ts:27 | no match gives `[0]`; otherwise one number per match, parsed after its first comma is removed |
| Salary.ParseTokens | src/lib/jobUtils.ts:27 | `map(s => parseInt(s.replace(',', '')))`: one number per token, each the token read after its first comma is removed |
| Salary.Max | src/lib/jobUtils.ts:29 | `Math.max` of the numbers is one of them and at least each of them |
| Salary.Min | src/lib/jobUtils.ts:28 | `Math.min` of the numbers is one of them and at most each of them |
| Salary.NoDigitsReadsAsZero | src/lib/jobUtils.ts:27-29 | a salary text without digits reads as the numbers [0], with minimum and maximum 0 |
| Salary.SalaryExtremes | src/lib/jobUtils.ts:27-29 | the minimum and maximum salary are numbers read from the text, every number read lies between them, and the minimum is at most the maximum |
| Salary.DigitChar | src/lib/jobApiService.ts:58 | the digit character of d reads back as d |
| Salary.NatToString | src/lib/jobApiService.ts:58 | the decimal text of a status code is non-empty, all digits, with no leading zero |
| Salary.NatToStringRoundTrip | src/lib/jobApiService.ts:58 | reading the decimal text back gives the same number |
| Salary.DigitRunAll | src/lib/jobUtils.ts:27 | an all-digit text is read to its end |
| Strings.Lower | src/lib/jobUtils.ts:14-18 | lower-casing keeps the length and maps each character |
| Strings.LexIrreflexive | src/lib/jobUtils.ts:55 | the company order never places a name before itself |
| Strings.LexTransitive | src/lib/jobUtils.ts:55 | the company order is transitive |
| Strings.LexTotal | src/lib/jobUtils.ts:55 | two different company names are ordered one way or the other |
| Strings.Title | python-backend/app.py:136 | `str.title()` keeps the length |
| Strings.TitleAfterAt | python-backend/app.py:136 | one character of the title-cased text, given whether a letter comes before it |
| Strings.TitleAt | python-backend/app.py:136 | `str.title()` upper-cases a letter that starts a run of letters, lower-cases every other letter, and keeps every other character |
| JobUtils.Filter | src/lib/jobUtils.ts:13-37 | the filtered sequence is no longer than the input |
| JobUtils.FilterContents | src/lib/jobUtils.ts:13-37 | a job is kept exactly when it is in the input and matches search, location, salary and types; no job is duplicated |
| JobUtils.FilterAllMatching | src/lib/jobUtils.ts:13-37 | a list whose every job matches is kept whole, in order |
| JobUtils.FilterJobs | src/lib/jobUtils.ts:3-60 | filtering and sorting never lengthens the list |
| JobUtils.FilterJobsContents | src/lib/jobUtils.ts:3-60 | the result holds exactly the matching jobs, as a permutation of the filtered list |
| JobUtils.FilterJobsOrder | src/lib/jobUtils.ts:40-57 | a known sort key gives a sorted result with tied jobs in filter order; an unknown key gives the filtered list unchanged |
| JobUtils.FilterJobsIdempotent | src/lib/jobUtils.ts:3-60 | filtering again with the same criteria changes nothing |
| JobUtils.RemoteOnlyRemote | src/lib/jobUtils.ts:21-24 | the "remote" location keeps only remote jobs |
| JobUtils.UnknownLocationMatchesNothing | src/lib/jobUtils.ts:21-24 | a location other than all/remote/nashville/both matches no job |
| JobUtils.OpenCriteriaKeepEverything | src/lib/jobUtils.ts:13-37 | an empty search, "all", no types and a covering salary band keep every job |
| JobUtils.NoDigitSalaryBand | src/lib/jobUtils.ts:27-30 | a salary without digits passes the band exactly when the band contains 0 |
| JobUtils.UpdateJobStatus | src/lib/jobUtils.ts:75-79 | jobs with the id get the new status; every other job is unchanged; the length is kept |
| JobUtils.UpdateJobStatusIdempotent | src/lib/jobUtils.ts:75-79 | applying the same status update twice is the same as once |
| JobUtils.UpdateUnknownId | src/lib/jobUtils.ts:75-79 | an id no job has leaves the list unchanged |
| JobUtils.CountStatus | src/lib/jobUtils.ts:62-73 | a status count is at most the number of jobs |
| JobUtils.CountRemote | src/lib/jobUtils.ts:62-73 | the remote and local counts are at most the number of jobs |
| JobUtils.GetJobStats | src/lib/jobUtils.ts:62-73 | the total is the number of jobs, and the average is absent (NaN) exactly for an empty list |
| JobUtils.StatusCountsPartition | src/lib/jobUtils.ts:62-73 | the four status counts add up to the number of jobs |
| JobUtils.RemoteCountsPartition | src/lib/jobUtils.ts:62-73 | the remote and local counts add up to the number of jobs |
| JobUtils.StatsPartition | src/lib/jobUtils.ts:62-73 | the statistics' status counts and remote/local counts each add up to the total |
| JobUtils.SumScoresBounds | src/lib/jobUtils.ts:71 | scores in 0..100 sum to between 0 and 100 times the count |
| JobUtils.AverageWithinScores | src/lib/jobUtils.ts:71 | the rounded average of scores in 0..100 is present and lies in 0..100 |
| JobUtils.UpdateKeepsRemoteCounts | src/lib/jobUtils.ts:62-79 | a status update keeps the remote counts and the score sum |
| JobUtils.UpdateKeepsStats | src/lib/jobUtils.ts:62-79 | a status update keeps the total, the remote and local counts and the average |
| JobUtils.ColorAndLabelAgree | src/lib/jobUtils.ts:81-92 | two scores get the same colour exactly when they get the same label |
| JobUtils.LabelMonotone | src/lib/jobUtils.ts:88-92 | a higher score never gets a worse label |
| JobUtils.RelevanceColor | src/lib/jobUtils.ts:81-86 | green exactly from 90, yellow exactly in 80..89, orange exactly in 70..79, red exactly below 70 |
| JobUtils.RelevanceLabel | src/lib/jobUtils.ts:88-93 | "Excellent Match" exactly from 90, "Good Match" exactly in 80..89, "Fair Match" exactly in 70..79, "Poor Match" exactly below 70 |
| JsArray.RelativeIndex | src/app/api/jobs/route.ts:27 | a slice position: kept when in range, cut to the length above it, counted from the end when negative |
| JsArray.Slice | src/app/api/jobs/route.ts:27 | a slice is no longer than its sequence |
| JsArray.SliceNonNegative | src/app/api/jobs/route.ts:27 | for non-negative bounds the slice is the run between them, cut at the end |
| JsArray.SlicePrefix | src/lib/jobApiService.ts:130 | `slice(0, n)` is the first n elements, or all of them |
| JsArray.SliceAdjacent | src/app/api/jobs/route.ts:27 | adjacent slices concatenate to the slice over both ranges |
| JsArray.PagesCover | src/app/api/jobs/route.ts:27 | the slices at a and a+l, each of size l, concatenate to the slice at a of size 2l |
| JobApiService.OrString | src/lib/jobApiService.ts:40-41 | `v \|\| d` on a string: the default for a missing or empty value, else the value |
| JobApiService.OrInt | src/lib/jobApiService.ts:42 | `v \|\| d` on a number: the default for a missing or zero value, else the value |
| JobApiService.SearchQuery | src/lib/jobApiService.ts:39-43 | the query's search and location are never empty and its limit is never 0, whatever the caller passed |
| JobApiService.QueryDefaults | src/lib/jobApiService.ts:39-43 | a missing or empty search, location and limit become "frontend developer", "nashville" and 20; a non-zero limit is kept |
| JobApiService.ErrorResponse | src/lib/jobApiService.ts:79-83 | the catch branch: no jobs, total 0, the error text, no message |
| JobApiService.Rescore | src/lib/jobApiService.ts:65-68 | each job keeps its fields except the relevance score, which is recomputed from the profile |
| JobApiService.RescoreInRange | src/lib/jobApiService.ts:65-68 | every rescored job lies in 0..100 |
| JobApiService.SearchJobs | src/lib/jobApiService.ts:37-85 | an error comes with no jobs unless it is the backend's own error field passed through; a thrown error's message is passed on as it is, even when empty, and "Failed to fetch jobs" stands in only when there is no message |
| JobApiService.SearchFailureShape | src/lib/jobApiService.ts:57-83 | a failed fetch, a non-2xx status or a body that is not JSON gives no jobs, total 0 and an error; a non-2xx status puts the status in the error text; a thrown error's own message is the error, and an error without one gives "Failed to fetch jobs" |
| JobApiService.SuccessfulSearch | src/lib/jobApiService.ts:61-74 | a 2xx answer with jobs returns them rescored and sorted by score, with the backend's total, message and error |
| JobApiService.EmptySearchUnchanged | src/lib/jobApiService.ts:64-74 | a 2xx answer without jobs is returned as it came |
| JobApiService.RelevanceSortFacts | src/lib/jobApiService.ts:64-72 | the sorted jobs are a permutation of the rescored ones, non-increasing in score, stable on ties and in 0..100 |
| JobApiService.CheckBackendHealth | src/lib/jobApiService.ts:87-100 | the backend is healthy exactly when the probe answered with a 2xx status |
| JobApiService.Fallback | src/lib/jobApiService.ts:114-133 | the fallback answer carries the fallback message and no error |
| JobApiService.FallbackContents | src/lib/jobApiService.ts:119-133 | the fallback lists the first `limit \|\| 20` locally filtered jobs, sorted by relevance, with the filtered count as total |
| JobApiService.FallbackChoice | src/lib/jobApiService.ts:103-134 | the backend's answer is used exactly when the backend is healthy and returned jobs; otherwise the fallback |
| JobApiService.SearchJobsWithFallback | src/lib/jobApiService.ts:103-134 | the answer is either the backend search or the local fallback, and an answer without jobs is always the fallback |
| JobApiService.ProbeFailureSkipsSearch | src/lib/jobApiService.ts:105-112 | when the probe fails, the search outcome is irrelevant and the fallback is returned |
| JobApiService.SortedSlice | src/lib/jobApiService.ts:130 | a slice of a sorted list is sorted |
| JobApiService.ErrorsOnlyFromBackend | src/lib/jobApiService.ts:103-134 | the combined search reports an error only when a healthy backend's JSON answer had jobs and that error |
| JobsRoute.TextOr | src/app/api/jobs/route.ts:8-10 | `get(...) \|\| d`: the default for a missing or empty parameter, else the parameter |
| JobsRoute.NumberOr | src/app/api/jobs/route.ts:11-12 | a missing number parameter becomes its default; a present one is kept |
| JobsRoute.ListJobs | src/app/api/jobs/route.ts:5-43 | the response echoes the offset and limit it used |
| JobsRoute.ListingFacts | src/app/api/jobs/route.ts:16-24 | the listing is no longer than the dataset, holds each job at most as often as the dataset does, and ignores the page parameters |
| JobsRoute.PageOfListing | src/app/api/jobs/route.ts:27 | the page for an offset and limit is `slice(offset, offset + limit)` of the listing |
| JobsRoute.RouteDefaults | src/app/api/jobs/route.ts:8-27 | with no parameters: the first twenty jobs in relevance order, offset 0, limit 20 |
| JobsRoute.PageIsSlice | src/app/api/jobs/route.ts:16-35 | the page is the run from offset to offset+limit of the listing, at most limit long; the total is the listing's length; hasMore holds exactly when jobs remain after the page, and then the page is full |
| JobsRoute.TotalIgnoresPaging | src/app/api/jobs/route.ts:31 | the total does not depend on offset or limit |
| JobsRoute.ConsecutivePages | src/app/api/jobs/route.ts:27 | two consecutive pages of size n concatenate to the page of size 2n |
| UseJobs.JobList.constructor | src/hooks/useJobs.ts:7-11 | the hook starts with no jobs, not loading, no error and empty last parameters |
| UseJobs.JobList.JobCount | src/hooks/useJobs.ts:85 | the count is the number of shown jobs |
| UseJobs.JobList.TotalJobs | src/hooks/useJobs.ts:86 | the total is the number of loaded jobs |
| UseJobs.JobList.StartSearch | src/hooks/useJobs.ts:15-16 | starting a search sets loading, clears the error and changes nothing else |
| UseJobs.JobList.FinishSearch | src/hooks/useJobs.ts:18-32 | an error answer sets the error only; a good answer replaces both lists and the last parameters; a throw sets its message or "Failed to search jobs"; loading ends in every case |
| UseJobs.JobList.SearchJobsFromAPI | src/hooks/useJobs.ts:14-33 | after a search there is an error exactly when the call threw or answered with one, and it is the answer's error, the thrown message or "Failed to search jobs"; without an error both lists are the answer's jobs and the parameters are remembered; with one, the lists and parameters are kept |
| UseJobs.JobList.FilterExistingJobs | src/hooks/useJobs.ts:36-51 | the shown jobs become the loaded jobs filtered with the fixed salary band 0..200000 and no types; nothing else changes |
| UseJobs.JobList.HandleStatusChange | src/hooks/useJobs.ts:54-61 | the status update is applied to both lists; nothing else changes |
| UseJobs.JobList.RefreshJobs | src/hooks/useJobs.ts:64-68 | with no remembered parameters nothing changes; otherwise the remembered search is repeated: the stored error is the one that search reports, both lists become its jobs when it succeeds and are kept when it fails, and the parameters are kept |
| UseJobs.JobList.ClearError | src/hooks/useJobs.ts:84 | the error is cleared and nothing else changes |
| UseJobs.UpdatePreservesMembership | src/hooks/useJobs.ts:54-61 | updating both lists keeps every shown job among the loaded jobs |
| PyText.PyTake | python-backend/linkedin_scraper.py:237 | Python's `xs[:n]`: the first n elements, or all of them |
| PyText.FoundIn | python-backend/linkedin_scraper.py:233-235 | the listed skills whose lower-cased form occurs in the text, in list order |
| PyText.FoundInMembers | python-backend/linkedin_scraper.py:233-235 | a skill is found exactly when it is listed and occurs in the text |
| PyText.FoundInAppend | python-backend/linkedin_scraper.py:233-235 | scanning one more skill appends it exactly when it occurs |
| PyText.NothingFoundInEmpty | python-backend/linkedin_scraper.py:231 | no non-empty skill is found in the empty text |
| PyText.CollectFound | python-backend/linkedin_scraper.py:233-235 | the scanning loop appends exactly the skills FoundIn lists, in list order |
| PyText.FirstFound | python-backend/linkedin_scraper.py:233-237 | the first n found skills are a prefix of the found list, at most n, contain only listed skills occurring in the text, and all of them when at most n are found |
| PyText.Truncate | python-backend/app.py:28 | a description of at most 500 characters is kept; a longer one becomes its first 500 characters and "..." |
| PyText.GroupThousands | python-backend/app.py:82-89 | `f"{n:,}"` of a natural number is non-empty and starts with a digit; its comma positions are stated by GroupThousandsGrouped |
| PyText.RemoveCommas | python-backend/app.py:82-89 | removing the grouping commas never lengthens the text |
| PyText.RemoveCommasAppend | python-backend/app.py:82-89 | comma removal distributes over concatenation |
| PyText.RemoveCommasOfDigits | python-backend/app.py:82-89 | a text of digits has no commas to remove |
| PyText.GroupedDigits | python-backend/app.py:82-89 | the grouped text of a natural number reads back, without commas, as its decimal digits |
| PyText.GroupThousandsRoundTrip | python-backend/app.py:82-89 | removing the commas from the grouped text gives the decimal text back |
| PyText.FormatThousandsReads | python-backend/app.py:82-89 | the grouped text of any integer reads back as that integer |
| PyText.FormatThousands | python-backend/app.py:82-89 | the grouped text of an integer is non-empty and starts with '-' exactly when the integer is negative |
| PyText.GroupThousandsGrouped | python-backend/app.py:82-89 | the grouped text is a group of one to three digits followed by comma-led groups of exactly three digits, with no leading zero unless it is "0" |
| PyText.GroupThousandsAs | python-backend/app.py:82-89 | the grouped text of m is well grouped and its digits, commas removed, have value m |
| PyText.GroupedUnique | python-backend/app.py:82-89 | the grouped text is the only well-grouped text of digits and commas whose digits have value n |
| PyText.ReadsAsUnique | python-backend/app.py:82-89 | a sign and a well-grouped text that read as n are exactly `f"{n:,}"`, so a text that reads as n pins down the output |
| PyText.FirstClose | python-backend/linkedin_scraper.py:224 | the index of the first '>', or the length |
| PyText.StripTags | python-backend/linkedin_scraper.py:224 | `re.sub(r'<[^>]+>', '', s)` keeps only characters of s, never lengthens it, and keeps a first character that does not open a tag |
| PyText.StripTagsKeepsText | python-backend/linkedin_scraper.py:224 | text before the first '<' survives as it is: stripping a + b gives a followed by the stripping of b |
| PyText.StripTagsDropsTag | python-backend/linkedin_scraper.py:224 | a tag at the front ('<', one or more characters other than '>', then '>') is removed whole and the rest is stripped on |
| PyText.StripTagsLeavesNoTag | python-backend/linkedin_scraper.py:224 | no complete tag survives: between any '<' and a later '>' there is another '>' |
| PyText.StripTagsPlain | python-backend/linkedin_scraper.py:224 | a text without '<' is unchanged |
| PyText.CleanHtml | python-backend/linkedin_scraper.py:224-225 | the cleaned text is single-spaced with no leading or trailing space, holds no tag, and has exactly the words, in order, of the tag-stripped text |
| PyText.CleanHtmlWords | python-backend/linkedin_scraper.py:224-225 | cleaning keeps the words of the text before the first '<', followed by those of the stripped rest; a text without '<' keeps all its words; a tag at the front changes nothing |
| PyText.NormalizeFront | python-backend/linkedin_scraper.py:225 | `' '.join(t.split())` is the first word of t, then, unless it was the only word, a space and the collapsed rest |
| PyText.NormalizeKeepsClose | python-backend/linkedin_scraper.py:225 | collapsing whitespace brings no '>' into a text |
| PyText.NormalizeKeepsNoTag | python-backend/linkedin_scraper.py:224-225 | collapsing the whitespace of a text without tags makes no tag, so the cleaned text holds none |
| PyText.CleanHtmlPlain | python-backend/linkedin_scraper.py:224-225 | a single-spaced text without '<' is unchanged by cleaning |
| PyText.CountInEither | python-backend/indeed_scraper.py:207-209 | the number of skills occurring in either text is at most the number of skills |
| PyText.CountInEitherMonotone | python-backend/indeed_scraper.py:207-209 | texts that contain every skill the others contained count at least as many |
| Strings.Strip | python-backend/linkedin_scraper.py:217 | `str.strip()`: the result is a piece of the text that starts and ends with a non-space, and is empty exactly when the text is all whitespace |
| Strings.StripFacts | python-backend/linkedin_scraper.py:217 | the stripped text is the infix between the leading and trailing whitespace |
| Strings.StripTrailingSpace | python-backend/linkedin_scraper.py:217 | a trailing whitespace character does not change the stripped text |
| Strings.NormalizeSpaces | python-backend/linkedin_scraper.py:225 | `' '.join(s.split())` is single-spaced, empty exactly when the text is all whitespace, and has exactly the words of s, in order |
| Strings.WordsOfJoin | python-backend/linkedin_scraper.py:225 | `split()` undoes joining non-empty space-free words with single spaces |
| Strings.JoinWordsSingleSpaced | python-backend/linkedin_scraper.py:225 | joining non-empty space-free words with single spaces gives a single-spaced text |
| Strings.NormalizeSingleSpaced | python-backend/linkedin_scraper.py:225 | normalising an already single-spaced text changes nothing, so cleaning is idempotent on its own output |
| LinkedinScraper.FirstAtSuffix | python-backend/linkedin_scraper.py:216 | the leftmost position where `\s+at\s+.+$` matches, or the length when none does |
| LinkedinScraper.CleanJobTitle | python-backend/linkedin_scraper.py:213-217 | without an " at ..." suffix the title is only stripped; with one, the stripped text before its leftmost match; never starts or ends with whitespace |
| LinkedinScraper.StripWithoutMatch | python-backend/linkedin_scraper.py:213-217 | removing the matched suffix and keeping a final line feed strips to the same text as cutting at the match |
| LinkedinScraper.CleanJobTitleExample | python-backend/linkedin_scraper.py:213-217 | "React Developer at Acme" becomes "React Developer" |
| LinkedinScraper.CleanHtmlDescription | python-backend/linkedin_scraper.py:219-225 | a missing or empty text gives ""; any other is cleaned as CleanHtml does, so the result is single-spaced with no tag and the words of the tag-stripped text |
| LinkedinScraper.ExtractSkillsFromText | python-backend/linkedin_scraper.py:227-237 | the first six of the nine skills found in the lower-cased text; only found skills, and all of them when at most six are found; none for a missing text |
| LinkedinScraper.SkillsFrom | python-backend/linkedin_scraper.py:250-254 | the skills of the first map key from k on that occurs in the search, or the default list |
| LinkedinScraper.GenerateLinkedinSkills | python-backend/linkedin_scraper.py:239-254 | the skills of the first key, in map order, contained in the lower-cased search term; the default four when none is |
| LinkedinScraper.LinkedinRelevance | python-backend/linkedin_scraper.py:256-271 | 75 for a missing title; +10 exactly for senior words, +5 exactly for junior words without senior ones, +8 exactly for tech words |
| LinkedinScraper.CalculateLinkedinRelevance | python-backend/linkedin_scraper.py:256-271 | the `score +=` steps compute LinkedinRelevance of the title; the description is not used |
| SalaryPattern.Down | python-backend/indeed_scraper.py:114-117 | the candidate lengths of a greedy repetition, longest first |
| SalaryPattern.Options | python-backend/indeed_scraper.py:114-117 | the ends a pattern piece can reach from a position, in the order a backtracking matcher tries them, are exactly those whose text the piece accepts |
| SalaryPattern.LitOptions | python-backend/indeed_scraper.py:114-117 | a literal character matches one character exactly when it is that character |
| SalaryPattern.LitNoCaseOptions | python-backend/indeed_scraper.py:122 | under `re.IGNORECASE` a letter such as the `k` of "$80k" matches one character of either case |
| SalaryPattern.DigitsOptions | python-backend/indeed_scraper.py:114-117 | `\d{lo,hi}` reaches, longest first, every end from lo to the shorter of hi and the digit run |
| SalaryPattern.OptCommaOptions | python-backend/indeed_scraper.py:114-117 | `,?` takes the comma when there is one, then tries without it |
| SalaryPattern.SpacesOptions | python-backend/indeed_scraper.py:114-117 | `\s*` takes every whitespace character first, then gives them back one by one |
| SalaryPattern.MatchFrom | python-backend/indeed_scraper.py:122 | the end of the first match the backtracking search finds lies between start and length |
| SalaryPattern.FirstEnd | python-backend/indeed_scraper.py:122 | trying the remaining options in order finds an end within the text |
| SalaryPattern.MatchFromSound | python-backend/indeed_scraper.py:122 | an end the backtracking search returns is reachable by the pattern |
| SalaryPattern.FirstEndSound | python-backend/indeed_scraper.py:122 | an end found through the options is reachable |
| SalaryPattern.MatchFromComplete | python-backend/indeed_scraper.py:122 | when the pattern can match at a position the search finds a match there |
| SalaryPattern.FirstEndComplete | python-backend/indeed_scraper.py:122 | when some remaining option leads to a match, the options search succeeds |
| SalaryPattern.MatchFromIff | python-backend/indeed_scraper.py:122 | the backtracking search succeeds at a position exactly when the pattern matches there |
| SalaryPattern.Search | python-backend/indeed_scraper.py:122 | `re.search`: the leftmost start where the pattern matches, with the backtracking end |
| SalaryPattern.SearchMeaning | python-backend/indeed_scraper.py:122 | no result exactly when the pattern matches nowhere; a result is the leftmost match |
| IndeedScraper.SalaryFrom | python-backend/indeed_scraper.py:120-126 | the text of the leftmost match of the first pattern that matches, or "Salary not specified" |
| IndeedScraper.ExtractSalaryFromDescription | python-backend/indeed_scraper.py:111-126 | the salary is the matched text of the first of the four patterns that matches, at its leftmost match; "Salary not specified" when none does |
| IndeedScraper.NoFirstSalaryMatch | python-backend/indeed_scraper.py:120-126 | when no pattern matches there is no first match |
| IndeedScraper.FirstSalaryMatchUnique | python-backend/indeed_scraper.py:120-126 | the first matching pattern and its leftmost match are unique |
| IndeedScraper.CleanHtmlDescription | python-backend/indeed_scraper.py:128-134 | the cleaned description is single-spaced, holds no tag, has exactly the words, in order, of the tag-stripped description, and plain single-spaced text is kept as it is |
| IndeedScraper.ExtractSkillsFromDescription | python-backend/indeed_scraper.py:136-151 | the first eight of the twenty skills found in the lower-cased description; only found skills, and all of them when at most eight are found |
| IndeedScraper.ExtractJobTags | python-backend/indeed_scraper.py:153-179 | exactly the experience tag, then the job-type tag if any, then Remote if "remote" occurs: one to three distinct tags, Senior, Junior or Mid-Level first by priority, Full-Time, Part-Time or Contract by priority, Remote last |
| IndeedScraper.JobTagsOfExact | python-backend/indeed_scraper.py:153-179 | the tag properties fix the list: any list with them is the three parts in order, so no tag repeats |
| IndeedScraper.LevelTagOf | python-backend/indeed_scraper.py:159-165 | exactly one experience tag: Senior exactly when a senior marker occurs, Junior exactly when a junior marker occurs and no senior one, else Mid-Level |
| IndeedScraper.TypeTagOf | python-backend/indeed_scraper.py:167-174 | at most one job-type tag: Full-Time, Part-Time or Contract, the first whose markers occur |
| IndeedScraper.RemoteTagOf | python-backend/indeed_scraper.py:176-177 | the Remote tag exactly when the text says "remote" |
| IndeedScraper.JobTagParts | python-backend/indeed_scraper.py:153-179 | the experience tag, then the job-type tag, then the remote tag, together have the tag properties |
| IndeedScraper.IndeedRelevance | python-backend/indeed_scraper.py:190-216 | the score lies in 60..95; the term in the title gives at least 80, in title and description at least 90; below the cap it is the raw sum |
| IndeedScraper.CalculateIndeedRelevance | python-backend/indeed_scraper.py:190-216 | the `score +=` steps and the skill loop compute IndeedRelevance |
| IndeedScraper.IndeedRelevanceMonotone | python-backend/indeed_scraper.py:190-216 | texts that keep every matched term, skill and remote mention never score lower |
| BackendApp.Titles | python-backend/app.py:133-135 | `skill.title()` applied to each found skill, in order |
| BackendApp.RequirementSkillsLower | python-backend/app.py:124-131 | the requirement skills are listed already lower-case, so the lower-cased description is searched for them as written |
| BackendApp.ExtractRequirements | python-backend/app.py:119-138 | no requirements for a missing description; otherwise the first eight title-cased skills found, only found skills, and all of them when at most eight are found |
| BackendApp.RequirementsMeaning | python-backend/app.py:119-138 | every listed requirement is a found skill title-cased; with at most eight found, every found skill is listed |
| BackendApp.RemoteFrom | python-backend/app.py:112-117 | some keyword from k on occurs exactly when the scan returns true |
| BackendApp.IsRemoteJob | python-backend/app.py:105-117 | a row is remote exactly when one of the five keywords occurs in its location, title or description |
| BackendApp.RecencyPoints | python-backend/app.py:65-75 | the recency bonus is 0, 5 or 10 |
| BackendApp.BasicRelevance | python-backend/app.py:40-77 | the score lies in 70..96 and strictly inside that range equals the raw sum |
| BackendApp.CalculateBasicRelevance | python-backend/app.py:40-77 | the skill loop and the `score +=` steps compute BasicRelevance |
| BackendApp.BasicRelevanceRecency | python-backend/app.py:65-77 | a newer posting never scores lower, and a dated posting never scores below an undated one |
| BackendApp.BasicRelevanceSkills | python-backend/app.py:48-54 | a title and description that keep every matched profile skill never score lower |
| BackendApp.FormatSalary | python-backend/app.py:79-91 | "$a - $b", "$a+", "Up to $b" or "Salary not specified" by which amounts are present, each amount a well-grouped text (commas every three digits from the right) that reads back as the amount, hence exactly `f"{int(x):,}"` by ReadsAsUnique |
| BackendApp.ExtractTags | python-backend/app.py:140-165 | exactly Remote if the row is remote, then the experience tag if any, then the job-type tag if any: at most three distinct tags, Senior, Junior or Mid-Level by title priority, Full-Time, Part-Time or Contract by job-type priority |
| BackendApp.TagsOfRowExact | python-backend/app.py:140-165 | the tag properties fix the list: any list with them is the three parts in order, so no tag repeats |
| BackendApp.LevelTag | python-backend/app.py:148-155 | at most one experience tag: Senior exactly when the title says "senior"; Junior for "junior" or "entry" without "senior"; Mid-Level for "mid" or "intermediate" without the others |
| BackendApp.TypeTag | python-backend/app.py:157-163 | at most one job-type tag: Full-Time, Part-Time or Contract, the first the job type mentions |
| BackendApp.TagsOfParts | python-backend/app.py:140-165 | the remote tag, then the experience tag, then the job-type tag, together have the tag properties |
| BackendApp.MapLocation | python-backend/app.py:173-182 | "remote" becomes "Remote"; missing, "nashville" and "both" become "Nashville, TN"; any other location is kept |
| BackendApp.MapLocationIdempotent | python-backend/app.py:173-182 | mapping a mapped location again changes nothing |
| BackendApp.JobDescription | python-backend/app.py:28 | the description text (or "nan" when missing) cut to 500 characters plus "..." when longer |
| SimpleScraper.FormatSalaryRemoteOk | python-backend/simple_scraper.py:132-139 | "$a - $b" when both amounts are truthy, "$a+" for a truthy minimum only, otherwise "Salary not specified"; each amount a well-grouped text that reads back as the amount, hence exactly `f"{x:,}"` by ReadsAsUnique |
| SimpleScraper.SimpleRelevance | python-backend/simple_scraper.py:150-169 | the score lies in 70..95; the term in the title gives at least 85; below the cap it is the raw sum |
| SimpleScraper.CalculateRelevanceSimple | python-backend/simple_scraper.py:150-169 | the `score +=` steps and the skill loop compute SimpleRelevance |
| SimpleScraper.SearchTerms | python-backend/simple_scraper.py:39 | five search terms, the lower-cased search term first |
| SimpleScraper.JobTextHoldsFields | python-backend/simple_scraper.py:49-55 | the searched text contains the lower-cased title, description, joined tags and company |
| SimpleScraper.MentionedWanted | python-backend/simple_scraper.py:49-57 | a posting whose lower-cased title or description mentions the lower-cased search term is kept |
| SimpleScraper.Convert | python-backend/simple_scraper.py:60-75 | a converted posting is remote, located "Remote", from RemoteOK, with at most eight requirements, one to six tags led by "Remote", and a score in 70..95 |
| SimpleScraper.Selected | python-backend/simple_scraper.py:41-76 | selection never yields more jobs than items |
| SimpleScraper.SelectedSound | python-backend/simple_scraper.py:41-76 | every selected job is the conversion of a wanted posting |
| SimpleScraper.SelectedComplete | python-backend/simple_scraper.py:41-76 | every wanted posting's conversion is selected |
| SimpleScraper.SelectedAppend | python-backend/simple_scraper.py:41-76 | selection distributes over concatenation |
| SimpleScraper.FirstSelectedFacts | python-backend/simple_scraper.py:41-78 | the first limit selected jobs are conversions of wanted postings |
| SimpleScraper.ScrapeRemoteOk | python-backend/simple_scraper.py:27-78 | a non-200 status, at most one item or a negative limit gives none; otherwise the first `limit` conversions of the wanted postings after the metadata item, all remote, from RemoteOK |

## Left out

- Network, fetch, timeouts, `AbortController`, console logging, the Flask routes and their JSON
  envelopes are not modelled. HTTP outcomes are parameters: an answer with a status and a JSON or
  malformed body, or a failure with an optional message.
- `fallback_app.py`, `generate_mock_jobs` and the mock job list are not part of this model. The
  local jobs are a parameter.
- The scrape loops of LinkedIn and Indeed are left out, with their request, RSS and HTML
  parsing. So are `convert_jobspy_to_app_format`'s row iteration and the JobSpy call. The
  per-posting helpers they call are modelled.
- `uuid`, the clock and date parsing are left out: `new Date`, `datetime.now`, `pd.to_datetime`,
  `format_date`, `format_date_remoteok` and `parse_indeed_date`. Posting dates and "now" are
  inputs: milliseconds in the front end, whole days in the backend. The `.days` of a NaT
  difference is taken as an absent day count.
- Floating point is left out. The profile weights are exact hundredths, and `Math.round` rounds
  half up on the scaled sum. The average relevance is an integer rounded mean.
- Lower-casing, `str.title()`, `str.split()` and `\s` cover ASCII only, plus the characters
  28-31 that Python's `split` treats as whitespace. No Unicode case mapping is modelled.
- SalaryPattern.DigitsOptions: `\d` in the Indeed salary patterns
  (python-backend/indeed_scraper.py:115-118) is the ASCII digits 0-9 only. Python's `\d` on a
  `str` also matches other Unicode decimal digits, such as Arabic-Indic ones, which the model
  does not accept.
- `localeCompare` is modelled as lexicographic order of character codes.
- A NaN date in the date sort is placed after every parseable date. The source's comparator
  returns NaN there, and the order it then produces is engine-defined.
- `Array.prototype.sort` sorts in place; the model sorts values. The sort is the stable one
  ECMAScript specifies.
- Regular expressions in general are left out. Only the patterns the core uses are modelled:
  `\d+,?\d*`, `<[^>]+>`, `\s+at\s+.+$` and the four Indeed salary patterns.
- `str()` of a non-string cell is not modelled: a cell is text or NaN (read as "nan").
- RemoteOK items with JSON `null` values are not modelled: each field of an item is either
  missing or a value of its type, and the date is not part of the item. In the source only some nulls raise, and an exception
  makes the scraper return an empty list. A null `tags` raises for every item, when None is
  iterated (python-backend/simple_scraper.py:51). A null `position` or `description` raises once
  the item is selected: `.lower()` on None (line 154) and `len(None)` (line 68). A null
  `company`, `url`, `salary_min`, `salary_max` or `date` does not raise. Such a value is searched as "none" (line 52), copied as None (lines 63 and 74) or
  read as absent (lines 65-66).
- Non-string tags are not modelled. `' '.join` of them raises
  (python-backend/simple_scraper.py:155), so the scraper returns an empty list.
- A JSON body without a `jobs` field, and a key present with an undefined value, are not
  modelled.
- A `parseInt` result that is NaN in the route's paging is not modelled, and neither is the
  route's catch branch: paging numbers are integers.
- Salary amounts are integers. The `int()` truncation of float amounts in `format_salary` is
  not modelled.
- The profile fields the score does not read (name, experience text, preferred industries) are
  left out.
- SalaryPattern.MatchFrom is a backtracking matcher for a pattern of pieces only (literals, a
  case-insensitive letter, bounded digit runs, an optional comma and whitespace runs). It does
  not model alternation or capture groups. The salary patterns' groups only capture, and they do
  not change the matched text that the scraper returns.
- LinkedinScraper.CalculateLinkedinRelevance takes the description as the source does, but the
  description does not affect the score.
- UseJobs.JobList.SearchJobsFromAPI: the awaited call is an input, so the interleaving of
  state updates with other callbacks during the await is not modelled.
