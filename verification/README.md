# SkillRoadMapGenerator — a Dafny model of the roadmap core

This project models the part of SkillRoadMapGenerator that turns a learner's
request into a stored, owner-scoped learning roadmap and tracks progress
through it. It covers:

- **The roadmap document.** This is the Mongoose schema with its topic and
  stage sub-documents. The model keeps the category and skill-level
  enumerations, the required strings, and the defaults (`completed` false,
  `includeProjects` false, empty lists). It also models the pre-save hook,
  which stamps `updatedAt` and recomputes `totalTopics`, `completedTopics`
  and the rounded `progress` percentage from the stages.
- **The roadmap routes.**
  - Generate renders the request-dependent prompt lines, sends them to the AI,
    extracts the JSON object from the reply, casts it into a document, saves it
    and pushes its id onto the owner's list.
  - List returns the caller's roadmaps, newest first.
  - Get, toggle-topic and delete act on one roadmap and are all scoped to its
    owner.
- **The roadmap page.**
  - The cumulative per-stage progress series.
  - Resource-to-link conversion. It takes the first `http(s)://` URL, or else
    treats a bare domain as a link.
  - The link caption.
  - The completion toggle request.
- **The request wizard.**
  - The form and the technology toggle.
  - The per-step "Continue" guard and the clamped Back/Continue moves.
  - The summary count.
  - The wizard as a state machine over the controls each step renders.
- **The dashboard.**
  - The summary cards and the two chart series.
  - The list kept after a delete.
  - The technology chips with their "+N more" badge.

Modules:

| file | module | contents |
|---|---|---|
| `optional.dfy` | `Optional` | `Option`, an all-or-nothing `MapAll`, and `Somes` (map, then drop the absent results) |
| `text.dfy` | `Text` | JavaScript whitespace, `trim`, `join`, decimal rendering |
| `seqs.dfy` | `Seqs` | order-preserving `filter` and remove-all (`Array.filter`, `$pull`) |
| `roadmap_model.dfy` | `RoadmapModel` | the document, casting, counters, rounding, pre-save derivation |
| `roadmap_routes.dfy` | `RoadmapRoutes` | the store (roadmaps plus per-user id lists) and the five routes |
| `roadmap_detail.dfy` | `RoadmapDetail` | the roadmap page |
| `generate_wizard.dfy` | `GenerateWizard` | the request wizard |
| `dashboard.dfy` | `Dashboard` | the dashboard |

The database is a `Store`. It holds a map from roadmap id to document, each
user's `roadmaps` id list, and the next fresh id. `Valid(s)` is the invariant
every route preserves. Under it:

- every stored document is keyed by its own id and is consistent, meaning its
  counters are the ones the pre-save hook would compute;
- every listed id is a stored roadmap of that user;
- every roadmap whose owner has a list appears in it.

The AI call and `JSON.parse` are parameters of `Generate`. The clock is a
`now` parameter.

The topic-completion route updates **every** topic whose id matches, not
only the first. The model follows the code: `MarkStages` maps over all
topics. Ids are unique in practice, so this matters only for hand-made data.

## Model

| member | source | states |
|---|---|---|
| RoadmapModel.ParseCategory | backend/models/Roadmap.js:11-15 | a stored category string is accepted exactly when it is the spelling of one of the six categories, and is read back as that category |
| RoadmapModel.ParseSkillLevel | backend/models/Roadmap.js:50-53 | a skill level is accepted exactly when it is one of the three spellings, and is read back as that level |
| RoadmapModel.CastTopic | backend/models/Roadmap.js:3-26 | a topic is accepted iff it has a non-empty title and a category from the enumeration; fields are carried over, `completed` defaults to false |
| RoadmapModel.CastStage | backend/models/Roadmap.js:28-37 | a stage is accepted iff it has a non-empty title and every topic is accepted; the topics are cast one-for-one in order |
| RoadmapModel.CompletedIn | backend/models/Roadmap.js:102 | completed topics number at most all topics, all of them exactly when every topic is completed, none exactly when none is |
| RoadmapModel.CountsAreFlatCounts | backend/models/Roadmap.js:100-106 | the per-stage sums `TotalTopics` and `CompletedTopics` equal the length and completed count of the flattened topic list |
| RoadmapModel.CompletedAtMostTotal | backend/models/Roadmap.js:100-106 | the completed counter never exceeds the total counter |
| RoadmapModel.AllCompletedIff | backend/models/Roadmap.js:100-106 | completed equals total exactly when every topic of every stage is completed |
| RoadmapModel.NoneCompletedIff | backend/models/Roadmap.js:100-106 | the completed counter is zero exactly when no topic is completed |
| RoadmapModel.RoundDiv | backend/models/Roadmap.js:107 | the result is the integer nearest to n/d, halves rounding up |
| RoadmapModel.RoundDivUnique | backend/models/Roadmap.js:107 | nearest-integer rounding has exactly one answer |
| RoadmapModel.RoundDivMonotone | backend/models/Roadmap.js:107 | rounding a larger numerator never gives a smaller result |
| RoadmapModel.Percent | backend/models/Roadmap.js:107 | progress is the nearest integer to 100·completed/total, at most 100, 0 with nothing completed or no topics, 100 when all are completed |
| RoadmapModel.PercentMonotone | backend/models/Roadmap.js:107 | completing more topics never lowers the progress |
| RoadmapModel.Derive | backend/models/Roadmap.js:93-110 | the saved document is consistent; only the three counters and `updatedAt` differ from the input |
| RoadmapModel.ConsistentIsDerived | backend/models/Roadmap.js:93-110 | re-saving a consistent document at its own timestamp changes nothing |
| RoadmapModel.DeriveIdempotent | backend/models/Roadmap.js:93-110 | saving twice is the same as saving once |
| RoadmapModel.DeriveReadsOnlyStages | backend/models/Roadmap.js:97-107 | the counters depend on the stages alone |
| RoadmapModel.DerivedCounters | backend/models/Roadmap.js:97-107 | after a save, total and completed count the flattened topics, progress lies in 0..100, and it is 0 when nothing and 100 when everything is completed |
| RoadmapRoutes.JsonSpan | backend/routes/roadmaps.js:72-75 | the greedy brace pattern matches iff some `{` has a `}` after it; the match starts with `{`, ends with `}` and is a contiguous piece of the reply |
| RoadmapRoutes.RenderList | backend/routes/roadmaps.js:21-27 | an absent list, `[]` or `[""]` prints "None"; any other list prints its items joined with ", " |
| RoadmapRoutes.TechLines | backend/routes/roadmaps.js:21-27 | seven lines, one per category in the prompt's order, each its label followed by the rendered list; the two framework lines keep only the known frontend and backend frameworks |
| RoadmapRoutes.PromptLines | backend/routes/roadmaps.js:15-27 | there are no prompt lines when the tech stack is absent; otherwise there are eleven, ending with the seven tech-stack lines |
| RoadmapRoutes.FrameworkLinesPartition | backend/routes/roadmaps.js:22-23 | each requested framework is printed on the frontend line, the backend line or neither, never on both |
| RoadmapRoutes.NewRoadmap | backend/routes/roadmaps.js:80-89 | the new document is accepted iff the reply has a title, the skill level is in the enumeration or absent, and every stage casts; the fields come from the reply and the request, `includeProjects` defaults to false |
| RoadmapRoutes.SaveKeepsValid | backend/routes/roadmaps.js:91-96 | saving a consistent roadmap under the next fresh id and pushing that id onto its owner's list keeps the store invariant |
| RoadmapRoutes.AskAi | backend/routes/roadmaps.js:12-77 | a missing tech stack, a failed AI call, a reply without a `{…}` span and an unparseable span each fail with their own cause; otherwise the result is the parsed span |
| RoadmapRoutes.Generate | backend/routes/roadmaps.js:9-105 | it succeeds exactly when the AI step succeeds and the reply casts to a document; a failure leaves the store unchanged and passes on the AI step's cause, or reports a validation failure when the reply does not cast; a success answers with the cast document as the pre-save hook leaves it, stored under a fresh id owned by the caller and appended to the caller's list; the store invariant is preserved |
| RoadmapRoutes.GenerateRejectsReplyWithoutJson | backend/routes/roadmaps.js:72-75 | a reply with no `{…}` span fails with "Invalid response from AI" and changes nothing |
| RoadmapRoutes.AskAiSucceeds | backend/routes/roadmaps.js:52-77 | once the AI has answered, the AI step yields a reply exactly when the answer has a `{…}` span that parses to it |
| RoadmapRoutes.SavedDocument | backend/routes/roadmaps.js:80-91 | the first save keeps the reply's and request's fields, makes the caller the owner, stamps both times with `now` and sets the total to the number of topics |
| RoadmapRoutes.GenerateSuccess | backend/routes/roadmaps.js:80-98 | with a usable reply the roadmap carries the reply's and request's fields, is owned only after the call, and every earlier roadmap is untouched |
| RoadmapRoutes.InsertNewestFirst | backend/routes/roadmaps.js:111-112 | inserting into a newest-first id list keeps it newest first, adds exactly that id and keeps ids distinct |
| RoadmapRoutes.SortNewestFirst | backend/routes/roadmaps.js:111-112 | the result holds exactly the given ids, each once, ordered by descending creation time |
| RoadmapRoutes.List | backend/routes/roadmaps.js:108-118 | the list holds exactly the caller's stored roadmaps, each once, newest first |
| RoadmapRoutes.Get | backend/routes/roadmaps.js:121-136 | the roadmap is returned iff it exists and belongs to the caller; otherwise the result is 404 "Roadmap not found" |
| RoadmapRoutes.MarkTopic | backend/routes/roadmaps.js:156-161 | a matching topic takes the requested flag, with a completion time exactly when it is completed; any other topic is unchanged |
| RoadmapRoutes.MarkStages | backend/routes/roadmaps.js:154-163 | stage and topic shapes are preserved, and every topic is marked in place |
| RoadmapRoutes.PatchTopic | backend/routes/roadmaps.js:139-174 | a foreign or missing roadmap is "Roadmap not found" and a missing topic "Topic not found", both leaving the store unchanged; otherwise the saved, consistent document replaces the old one and the invariant is preserved |
| RoadmapRoutes.PatchTopicEffect | backend/routes/roadmaps.js:154-170 | a patch changes only the matching topics' `completed` and `completedAt` (set to `now` exactly when completing), the counters and `updatedAt`: every other stage and topic field and every unmatched topic is kept, the stored stages are the marked stages, the total is unchanged and the completed count is recomputed |
| RoadmapRoutes.TotalTopicsSameShape | backend/routes/roadmaps.js:154-170 | stages of the same shape have the same topic total |
| RoadmapRoutes.MarkStagesIdempotent | backend/routes/roadmaps.js:154-163 | sending the same toggle twice has the effect of sending it once |
| RoadmapRoutes.Delete | backend/routes/roadmaps.js:177-197 | delete succeeds iff the caller owns the roadmap; it removes the document and every copy of its id from the caller's list, and answers "Roadmap deleted successfully"; otherwise 404 with nothing changed |
| RoadmapRoutes.ForeignRoadmapIsNotFound | backend/routes/roadmaps.js:123-130 | another user's roadmap looks missing to get, patch and delete alike |
| RoadmapRoutes.RemoveKeepsValid | backend/routes/roadmaps.js:179-191 | removing an owned roadmap and pulling its id from the owner's list keeps the store invariant |
| RoadmapRoutes.DeleteUndoesSave | backend/routes/roadmaps.js:179-191 | deleting a roadmap just filed under a fresh id restores the stored roadmaps and the owner's list |
| RoadmapRoutes.DeleteUndoesGenerate | backend/routes/roadmaps.js:177-197 | deleting a just-generated roadmap restores the stored roadmaps and the caller's list |
| RoadmapDetail.ProgressData | Frontend/src/pages/RoadmapDetail.jsx:75-94 | one point per stage, labelled "Stage i+1", holding the running totals of topics and completed topics up to that stage |
| RoadmapDetail.PrefixCountsGrow | Frontend/src/pages/RoadmapDetail.jsx:81-89 | running totals never decrease along the stages |
| RoadmapDetail.ProgressSeriesAgreesWithSave | Frontend/src/pages/RoadmapDetail.jsx:75-94 | the series is empty without stages, and never has completed above total; it is non-decreasing, and its last point equals the counters the save stores |
| RoadmapDetail.FirstUrlFrom | Frontend/src/pages/RoadmapDetail.jsx:98 | finds the leftmost position where `https?://` followed by a non-stop character begins, or reports there is none |
| RoadmapDetail.LooksLikeDomain | Frontend/src/pages/RoadmapDetail.jsx:102 | true exactly when the resource starts with a word/hyphen run, a dot and another word/hyphen character |
| RoadmapDetail.FormatUrl | Frontend/src/pages/RoadmapDetail.jsx:96-106 | every link produced starts with `http://` or `https://` |
| RoadmapDetail.FormatUrlFollowsPatterns | Frontend/src/pages/RoadmapDetail.jsx:96-106 | the link is the leftmost `http(s)://` URL up to whitespace or `)`; with none, it is `https://` + resource for a domain-like resource and no link otherwise |
| RoadmapDetail.MatchedUrlHasNoStops | Frontend/src/pages/RoadmapDetail.jsx:98 | a matched URL contains no whitespace and no `)` |
| RoadmapDetail.MatchedUrlOccursFirst | Frontend/src/pages/RoadmapDetail.jsx:329 | the first textual occurrence of the matched URL is where the pattern matched |
| RoadmapDetail.RemoveFirstCutsMatchedUrl | Frontend/src/pages/RoadmapDetail.jsx:329 | the caption starts from the resource with exactly the matched URL cut out |
| RoadmapDetail.RemoveFirstKeepsBareDomain | Frontend/src/pages/RoadmapDetail.jsx:329 | for a bare-domain link nothing is cut from the resource |
| RoadmapDetail.StripParens | Frontend/src/pages/RoadmapDetail.jsx:329 | removing "whitespace run + parenthesis" leaves no parentheses |
| RoadmapDetail.StripParensExact | Frontend/src/pages/RoadmapDetail.jsx:329 | the scanning replacement removes exactly the characters that start a whitespace run ending at a parenthesis, keeping the rest in order |
| RoadmapDetail.StripParensKeepsPlainText | Frontend/src/pages/RoadmapDetail.jsx:329 | text without parentheses is left unchanged |
| RoadmapDetail.StripParensKeepsText | Frontend/src/pages/RoadmapDetail.jsx:329 | the removal keeps every character that is neither whitespace nor a parenthesis, in order |
| RoadmapDetail.TrimKeepsText | Frontend/src/pages/RoadmapDetail.jsx:329 | trimming drops whitespace only: every other character stays, in order |
| RoadmapDetail.LinkLabel | Frontend/src/pages/RoadmapDetail.jsx:329 | the caption is never empty: either the URL itself, or a text with no parentheses and no whitespace at either end |
| RoadmapDetail.LinkLabelExact | Frontend/src/pages/RoadmapDetail.jsx:329 | the caption is the trimmed survivors of the resource without its first URL occurrence when that is not blank, and the URL otherwise |
| RoadmapDetail.LinkLabelKeepsText | Frontend/src/pages/RoadmapDetail.jsx:329 | the caption keeps, in order, every character of the resource-minus-URL that is neither whitespace nor a parenthesis; when there is none, the caption is the URL |
| RoadmapDetail.LinkFor | Frontend/src/pages/RoadmapDetail.jsx:325-329 | a resource is rendered as a link exactly when it yields a URL, and the link points at that URL with the caption `LinkLabel` gives for the resource and that URL |
| RoadmapDetail.ResourceLinks | Frontend/src/pages/RoadmapDetail.jsx:325-329 | a link is shown exactly when some resource yields it, there are never more links than resources, and every link shown is `http(s)://` with a non-empty caption |
| RoadmapDetail.ResourceLinksInOrder | Frontend/src/pages/RoadmapDetail.jsx:325-329 | links follow the resources in order: one resource gives its own link or nothing, and a concatenation gives its parts' links one after the other |
| RoadmapDetail.ResourceLinksCount | Frontend/src/pages/RoadmapDetail.jsx:325-329 | when every resource yields a URL each gets a link; when none does, nothing is rendered |
| RoadmapDetail.ToggleRequest | Frontend/src/pages/RoadmapDetail.jsx:44-48 | the request asks for the opposite of the topic's current state |
| RoadmapDetail.ToggleTwiceRestores | Frontend/src/pages/RoadmapDetail.jsx:41-53 | two toggles of a topic flip it and then flip it back; its completion time is present exactly while it is completed |
| GenerateWizard.WithSelected | Frontend/src/pages/GenerateRoadmap.jsx:84-89 | one category's list is replaced and every other category is kept |
| GenerateWizard.ToggleTech | Frontend/src/pages/GenerateRoadmap.jsx:81-91 | a selected technology is removed with all its copies, every other selection keeping its multiplicity and (through `Seqs.RemoveAll`) its order, and an unselected one is appended; nothing else in the form changes |
| GenerateWizard.ToggleTwiceRestores | Frontend/src/pages/GenerateRoadmap.jsx:81-91 | selecting and then deselecting a technology gives back the form |
| GenerateWizard.SummaryCountIsSum | Frontend/src/pages/GenerateRoadmap.jsx:271 | the summary count is the sum of the six list lengths, and is positive exactly when the step-3 guard holds |
| GenerateWizard.ToggleChangesCount | Frontend/src/pages/GenerateRoadmap.jsx:81-91 | a toggle raises the count by one, or lowers it by the number of copies removed |
| GenerateWizard.CanProceed | Frontend/src/pages/GenerateRoadmap.jsx:106-117 | step 1 needs a name with a non-whitespace character, step 2 a skill level, step 3 some technology; other steps always pass |
| GenerateWizard.Back | Frontend/src/pages/GenerateRoadmap.jsx:351 | Back moves one step back and never goes below step 1 |
| GenerateWizard.Continue | Frontend/src/pages/GenerateRoadmap.jsx:360 | Continue moves one step on and never goes beyond step 4 |
| GenerateWizard.Next | Frontend/src/pages/GenerateRoadmap.jsx:136-368 | only navigation moves the step and only inputs change the form; Continue advances by one exactly when the bar is shown and the step's guard holds, Back goes back by one exactly on steps 2 and 3; each input sets its own field (the technology buttons toggle) on its own step only, and leaves every other field of the form as it was |
| GenerateWizard.NextKeepsInv | Frontend/src/pages/GenerateRoadmap.jsx:136-368 | one user action keeps the step in 1..4, and every passed step still satisfies its guard |
| GenerateWizard.RunKeepsInv | Frontend/src/pages/GenerateRoadmap.jsx:136-368 | any sequence of actions keeps that invariant |
| GenerateWizard.ReachableIsComplete | Frontend/src/pages/GenerateRoadmap.jsx:106-117 | from the initial form, step 4 (Generate) is reached only with a non-blank name, a skill level and at least one technology |
| Dashboard.SumBounded | Frontend/src/pages/Dashboard.jsx:30 | a sum of n terms each at most b is at most b·n |
| Dashboard.SumMonotone | Frontend/src/pages/Dashboard.jsx:32-33 | summing a pointwise smaller quantity gives a smaller sum |
| Dashboard.ComputeStats | Frontend/src/pages/Dashboard.jsx:29-33 | the cards show the roadmap count, the average progress rounded to the nearest integer (0 for no roadmaps), and the summed topic counters |
| Dashboard.StatsInRange | Frontend/src/pages/Dashboard.jsx:29-33 | over saved roadmaps the average is at most 100 and completed never exceeds total |
| Dashboard.FullAverageWhenAllDone | Frontend/src/pages/Dashboard.jsx:31 | when every roadmap of a non-empty list is at 100% the average is 100 |
| Dashboard.FullAverageWithUnfinished | Frontend/src/pages/Dashboard.jsx:31 | the converse fails: roadmaps at 100% and 99% average 100 after rounding |
| Dashboard.PieData | Frontend/src/pages/Dashboard.jsx:74-77 | the two slices are named Completed and Remaining and add up to the topic total |
| Dashboard.PieSlicesNonNegative | Frontend/src/pages/Dashboard.jsx:74-77 | for saved roadmaps neither slice is negative |
| Dashboard.ChartName | Frontend/src/pages/Dashboard.jsx:70 | titles of at most 20 characters are kept whole; longer ones keep their first 20 and end in "...", 23 characters in all |
| Dashboard.ProgressBars | Frontend/src/pages/Dashboard.jsx:69-72 | one bar per roadmap in list order, named by the truncated title |
| Dashboard.DeleteLocal | Frontend/src/pages/Dashboard.jsx:53 | the kept list holds exactly the roadmaps with a different id, each as often as before |
| Dashboard.DeleteLocalSplit | Frontend/src/pages/Dashboard.jsx:53 | the delete works piecewise: a single roadmap is dropped exactly when it has the id, and a concatenation is filtered part by part, so the kept roadmaps stay in order |
| Dashboard.DeleteLocalKeepsOrder | Frontend/src/pages/Dashboard.jsx:53 | the kept list stays newest first |
| Dashboard.DeleteThenRefresh | Frontend/src/pages/Dashboard.jsx:48-58 | after a delete, the locally filtered list holds the same roadmaps as a fresh server list, and both are newest first |
| Dashboard.ListedExactly | backend/routes/roadmaps.js:111-112 | a roadmap is in the server's list exactly when it is one of the caller's stored roadmaps |
| Dashboard.StaleStatsAfterDelete | Frontend/src/pages/Dashboard.jsx:48-58 | the cards are not recomputed after a delete, and they count more roadmaps than the kept list holds |
| Dashboard.Take | Frontend/src/pages/Dashboard.jsx:266-267 | `slice(0, n)` is the prefix of length min(n, length) |
| Dashboard.Drop | Frontend/src/pages/Dashboard.jsx:266-267 | what `slice(0, n)` leaves out, so that the two together give back the list |
| Dashboard.MoreBadgeAsWritten | Frontend/src/pages/Dashboard.jsx:276-280 | as written, the badge shows when languages and frameworks number more than four, with their number minus four |
| Dashboard.MoreBadge | Frontend/src/pages/Dashboard.jsx:265-280 | the badge shows exactly when some language or framework has no chip, and counts those |
| Dashboard.Chips | Frontend/src/pages/Dashboard.jsx:265-268 | the chips are the first (up to) two languages followed by the first (up to) two frameworks, at most four |
| Dashboard.ChipsAndBadgeCoverAll | Frontend/src/pages/Dashboard.jsx:265-280 | chips and hidden items are exactly the languages and frameworks, so chips plus badge count equal their number |
| Dashboard.BadgeAgreesIff | Frontend/src/pages/Dashboard.jsx:276-280 | the written badge agrees with the intended one iff both lists fill their two chips or neither overflows them |
| Dashboard.BadgeUndercounts | Frontend/src/pages/Dashboard.jsx:276-280 | five languages and no frameworks give two chips and "+1 more" although three are hidden |
| Dashboard.BadgeMissing | Frontend/src/pages/Dashboard.jsx:276-280 | three languages and no frameworks give no badge although one is hidden |
| Seqs.FilterMembers | Frontend/src/pages/Dashboard.jsx:53 | the result holds exactly the items that pass |
| Seqs.FilterCount | Frontend/src/pages/GenerateRoadmap.jsx:87 | each passing item keeps its number of copies, and each failing item has none |
| Seqs.FilterAppend | Frontend/src/pages/GenerateRoadmap.jsx:87 | filtering distributes over concatenation |
| Seqs.RemoveAll | backend/routes/roadmaps.js:189-191 | `$pull` removes every copy of the id and keeps every other id |
| Seqs.RemoveAllLength | backend/routes/roadmaps.js:189-191 | the list shrinks by the number of copies removed |
| Seqs.RemoveAllCount | Frontend/src/pages/GenerateRoadmap.jsx:87 | removal zeroes the count of the removed item and keeps every other count |
| Seqs.RemoveAllSplit | Frontend/src/pages/GenerateRoadmap.jsx:87 | removal works piecewise, one item dropped exactly when it is the removed one, so the kept items stay in order |
| Seqs.RemoveAllAppend | backend/routes/roadmaps.js:189-191 | pulling an id that was just pushed gives what pulling it before the push would |
| Text.Trim | Frontend/src/pages/GenerateRoadmap.jsx:109 | `trim()` yields the piece of the input that starts after its leading whitespace, with no whitespace at either end, empty exactly for all-whitespace input |
| Text.TrimSplit | Frontend/src/pages/GenerateRoadmap.jsx:109 | the input is its leading whitespace, the trimmed text and trailing whitespace, glued together |
| Text.JoinEmptyIff | backend/routes/roadmaps.js:21-27 | joining with ", " gives "" exactly for `[]` and `[""]` |
| Text.Decimal | Frontend/src/pages/RoadmapDetail.jsx:89 | a number prints as digits without a leading zero |
| Text.DecimalRoundTrip | Frontend/src/pages/RoadmapDetail.jsx:89 | reading the printed digits back gives the number |
| Optional.MapAll | backend/models/Roadmap.js:36 | a sub-document array is accepted iff every element is, and is cast element by element |
| Optional.SomesMembers | Frontend/src/pages/RoadmapDetail.jsx:325-329 | a mapped result is rendered exactly when some item yields it |
| Optional.SomesSplit | Frontend/src/pages/RoadmapDetail.jsx:325-329 | rendering a concatenation renders its parts one after the other |

## Left out

- The AI call, its HTTP transport, its key, and `JSON.parse` are the parameters `ai` and `parse` of `Generate`. The fixed instruction text of the prompt is not reproduced, only the lines that depend on the request.
- Authentication, the user schema beyond its `roadmaps` list, the server wiring and the HTTP client are not part of this model.
- Rendering, animation and styling are not modelled, and neither is the skill-level badge colour.
- Concurrency is not modelled. Each route is one atomic step, so a request racing with another cannot be expressed.
- Timestamps are natural numbers supplied by the caller.
- Ids are natural numbers, so a malformed id cannot be expressed. Mongoose would reject such an id with a cast error, answered as a 500.
- A request body whose `completed` is not a boolean is not modelled.
- RoadmapModel.Percent: rounds the exact quotient 100·completed/total, while the source rounds the double `completed / total * 100`; the two differ where floating point lands just below a half, e.g. 23 of 40 topics gives 57.49999999999999 in doubles, so the source stores 57 where the model says 58. JavaScript floating point is not modelled.
- Dashboard.ComputeStats: computes `Math.round(totalProgress / n)` exactly. JavaScript floating point is not modelled.
- RoadmapRoutes.List: does not fix the order of roadmaps created at the same instant; the database's tie order is not specified.
- String lengths count Dafny characters rather than UTF-16 code units. This matters only for the 20-character chart title cut and only beyond the Basic Multilingual Plane.
- A reply's topics may already carry `completedAt` while not completed. The model stores them as sent, as the schema does.

## Findings

| source | as written | input that shows it | evidently intended | confidence | as-written member | corrected member |
|---|---|---|---|---|---|---|
| Frontend/src/pages/Dashboard.jsx:276-280 | the "+N more" badge uses N = languages + frameworks − 4 and shows only when that is positive, while at most two of each list get a chip | five languages and no frameworks: two chips and "+1 more" although three are hidden; three languages and none else: one hidden and no badge | N is the number of languages and frameworks without a chip, and the badge shows whenever it is positive | not executed | Dashboard.MoreBadgeAsWritten (Dashboard.BadgeUndercounts, Dashboard.BadgeMissing) | Dashboard.MoreBadge (Dashboard.ChipsAndBadgeCoverAll) |
