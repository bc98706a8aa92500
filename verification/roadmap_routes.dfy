/**
 * The roadmap REST endpoints as operations on an owner-scoped store:
 * generate, list, get, topic-completion update and delete. The store holds
 * every roadmap by id and, for each user record, the list of roadmap ids
 * it references. The generation service and the JSON parser are opaque
 * function parameters; the clock is a `now` parameter.
 */
module RoadmapRoutes {
  import opened Optional
  import opened RoadmapModel
  import Text
  import Seqs

  // ---------------------------------------------------------------------------
  // Errors
  // ---------------------------------------------------------------------------

  /** Why a generation request failed; every cause is reported as a 500. */
  datatype GenerateError =
    | MissingTechStack   // the prompt reads `techStack.languages` of an absent `techStack`
    | AiUnavailable      // the generation call failed or its reply has no text
    | InvalidAiResponse  // no `{ ... }` span in the reply text
    | UnparseableJson    // the span is not valid JSON
    | ValidationFailed   // a required field is missing or an enum value is unknown

  datatype ApiError = RoadmapNotFound | TopicNotFound | GenerationFailed(cause: GenerateError)

  datatype Result<T> = Ok(value: T) | Err(error: ApiError)

  function Status(e: ApiError): nat {
    match e
    case RoadmapNotFound => 404
    case TopicNotFound => 404
    case GenerationFailed(_) => 500
  }

  function Message(e: ApiError): string {
    match e
    case RoadmapNotFound => "Roadmap not found"
    case TopicNotFound => "Topic not found"
    case GenerationFailed(_) => "Failed to generate roadmap"
  }

  /** The `error` detail sent with a generation failure, where the source fixes one. */
  function Detail(g: GenerateError): Option<string> {
    if g == InvalidAiResponse then Some("Invalid response from AI") else None
  }

  // ---------------------------------------------------------------------------
  // Extracting the JSON object from the reply text
  // ---------------------------------------------------------------------------

  /** Some `{` has a `}` somewhere after it. */
  predicate HasBraceSpan(text: string) {
    exists i, j :: 0 <= i < j < |text| && text[i] == '{' && text[j] == '}'
  }

  /** `json` sits in `text` at `i`, with no `{` before it and no `}` after it. */
  predicate SpanAt(text: string, i: int, json: string) {
    && Text.InfixAt(json, text, i)
    && (forall k :: 0 <= k < i ==> text[k] != '{')
    && (forall k :: i + |json| <= k < |text| ==> text[k] != '}')
  }

  /** The greedy match of `/\{[\s\S]*\}/`: from the first `{` to the last `}`,
      and nothing when no `{` is followed by a `}`. */
  function JsonSpan(text: string): (r: Option<string>)
    ensures r.Some? <==> HasBraceSpan(text)
    ensures r.Some? ==> |r.value| >= 2 && r.value[0] == '{' && r.value[|r.value| - 1] == '}'
    ensures r.Some? ==> exists i :: SpanAt(text, i, r.value)
  {
    var i := Text.FirstIndex(text, '{');
    var j := Text.LastEnd(text, '}');
    if i < |text| && i < j - 1 then
      assert text[i] == '{' && text[j - 1] == '}';
      assert SpanAt(text, i, text[i..j]);
      Some(text[i..j])
    else
      None
  }

  // ---------------------------------------------------------------------------
  // The technology section of the generation prompt
  // ---------------------------------------------------------------------------

  /** The request's `techStack`: each list may be absent. */
  datatype TechLists = TechLists(
    languages: Option<seq<string>>,
    frameworks: Option<seq<string>>,
    libraries: Option<seq<string>>,
    databases: Option<seq<string>>,
    devops: Option<seq<string>>,
    otherTech: Option<seq<string>>)

  datatype GenerateRequest = GenerateRequest(
    roadmapName: Option<string>,
    skillLevel: Option<string>,
    includeProjects: Option<bool>,
    techStack: Option<TechLists>)

  const FrontendFrameworks: seq<string> := ["React", "Vue", "Angular", "Svelte", "Next.js", "Nuxt.js"]
  const BackendFrameworks: seq<string> :=
    ["Express.js", "Django", "Flask", "Spring Boot", "FastAPI", "Rails", "NestJS", "Laravel"]

  /** `xs?.join(', ') || 'None'`: the items joined with ", ", or "None" when
      the list is absent or its join is empty (`[]` and `[""]`). */
  function RenderList(xs: Option<seq<string>>): (r: string)
    ensures xs.None? || xs.value == [] || xs.value == [""] ==> r == "None"
    ensures xs.Some? && xs.value != [] && xs.value != [""] ==> r == Text.Join(xs.value, ", ")
  {
    match xs
    case None => "None"
    case Some(items) =>
      var joined := Text.Join(items, ", ");
      Text.JoinEmptyIff(items, ", ");
      if joined == "" then "None" else joined
  }

  /** `frameworks?.filter(f => allowed.includes(f))`: absent stays absent. */
  function KeepFrameworks(xs: Option<seq<string>>, allowed: seq<string>): Option<seq<string>> {
    match xs
    case None => None
    case Some(items) => Some(Seqs.Filter(items, f => f in allowed))
  }

  /** The seven technology lines of the prompt, in the order the prompt lists them. */
  function TechLines(t: TechLists): (lines: seq<string>)
    ensures |lines| == 7
    ensures lines[0] == "  - Languages: " + RenderList(t.languages)
    ensures lines[1] == "  - Frontend Frameworks: " + RenderList(KeepFrameworks(t.frameworks, FrontendFrameworks))
    ensures lines[2] == "  - Backend Frameworks: " + RenderList(KeepFrameworks(t.frameworks, BackendFrameworks))
    ensures lines[3] == "  - Libraries: " + RenderList(t.libraries)
    ensures lines[4] == "  - Databases: " + RenderList(t.databases)
    ensures lines[5] == "  - DevOps & Cloud: " + RenderList(t.devops)
    ensures lines[6] == "  - Other Tech: " + RenderList(t.otherTech)
  {
    [ "  - Languages: " + RenderList(t.languages),
      "  - Frontend Frameworks: " + RenderList(KeepFrameworks(t.frameworks, FrontendFrameworks)),
      "  - Backend Frameworks: " + RenderList(KeepFrameworks(t.frameworks, BackendFrameworks)),
      "  - Libraries: " + RenderList(t.libraries),
      "  - Databases: " + RenderList(t.databases),
      "  - DevOps & Cloud: " + RenderList(t.devops),
      "  - Other Tech: " + RenderList(t.otherTech) ]
  }

  /** A JavaScript template literal prints an absent value as "undefined". */
  function Interpolate(s: Option<string>): string {
    s.GetOr("undefined")
  }

  function BoolText(b: Option<bool>): string {
    match b
    case None => "undefined"
    case Some(v) => if v then "true" else "false"
  }

  /** The request-dependent lines of the prompt; nothing when `techStack` is
      absent, because reading a list of it throws before the call is made. */
  function PromptLines(req: GenerateRequest): (p: Option<seq<string>>)
    ensures p.Some? <==> req.techStack.Some?
    ensures p.Some? ==> |p.value| == 11 && p.value[4..] == TechLines(req.techStack.value)
  {
    match req.techStack
    case None => None
    case Some(t) =>
      Some([ "- Roadmap Name: " + Interpolate(req.roadmapName),
             "- Skill Level: " + Interpolate(req.skillLevel),
             "- Include Projects: " + BoolText(req.includeProjects),
             "- Tech Stack:" ] + TechLines(t))
  }

  /** The framework lines split the known frameworks: each requested
      framework appears on the frontend line if it is a frontend framework,
      on the backend line if it is a backend one, never on both, and on
      neither when it is on neither fixed list. */
  lemma FrameworkLinesPartition(frameworks: seq<string>, f: string)
    requires f in frameworks
    ensures f in FrontendFrameworks ==> f in Seqs.Filter(frameworks, g => g in FrontendFrameworks)
    ensures f in BackendFrameworks ==> f in Seqs.Filter(frameworks, g => g in BackendFrameworks)
    ensures !(f in Seqs.Filter(frameworks, g => g in FrontendFrameworks)
              && f in Seqs.Filter(frameworks, g => g in BackendFrameworks))
    ensures f !in FrontendFrameworks && f !in BackendFrameworks ==>
              && f !in Seqs.Filter(frameworks, g => g in FrontendFrameworks)
              && f !in Seqs.Filter(frameworks, g => g in BackendFrameworks)
  {
    Seqs.FilterMembers(frameworks, g => g in FrontendFrameworks);
    Seqs.FilterMembers(frameworks, g => g in BackendFrameworks);
  }

  // ---------------------------------------------------------------------------
  // The store
  // ---------------------------------------------------------------------------

  /** Every saved roadmap by id, each user record's `roadmaps` id list, and
      the next fresh id the database would hand out. */
  datatype Store = Store(roadmaps: map<RoadmapId, Roadmap>, userRoadmaps: map<UserId, seq<RoadmapId>>, nextId: RoadmapId)

  /** What every operation keeps: ids match keys and are below the next fresh
      id, counters agree with the topics, a user's list names only roadmaps
      that user owns, and an owner with a user record lists each of its roadmaps. */
  predicate Valid(s: Store) {
    && (forall k :: k in s.roadmaps ==> s.roadmaps[k].id == k && k < s.nextId && Consistent(s.roadmaps[k]))
    && (forall u, i :: u in s.userRoadmaps && 0 <= i < |s.userRoadmaps[u]| ==>
          s.userRoadmaps[u][i] in s.roadmaps && s.roadmaps[s.userRoadmaps[u][i]].createdBy == u)
    && (forall k :: k in s.roadmaps && s.roadmaps[k].createdBy in s.userRoadmaps ==>
          k in s.userRoadmaps[s.roadmaps[k].createdBy])
  }

  /** The roadmap `id` exists and belongs to `caller`. */
  predicate OwnedBy(s: Store, caller: UserId, id: RoadmapId) {
    id in s.roadmaps && s.roadmaps[id].createdBy == caller
  }

  // ---------------------------------------------------------------------------
  // POST /generate
  // ---------------------------------------------------------------------------

  function ToTechStack(t: TechLists): TechStack {
    TechStack(t.languages.GetOr([]), t.frameworks.GetOr([]), t.libraries.GetOr([]),
              t.databases.GetOr([]), t.devops.GetOr([]), t.otherTech.GetOr([]))
  }

  /** The new document before its first save: title, description, duration
      and stages from the parsed reply; skill level, project flag and
      technologies from the request; owner and creation time from the call.
      Nothing when the schema rejects it. */
  function NewRoadmap(id: RoadmapId, caller: UserId, req: GenerateRequest, t: TechLists, reply: Reply, now: Time): (r: Option<Roadmap>)
    ensures r.Some? <==> && Present(reply.title)
                         && (req.skillLevel.Some? ==> ParseSkillLevel(req.skillLevel.value).Some?)
                         && forall k :: 0 <= k < |reply.stages| ==> CastStage(reply.stages[k]).Some?
    ensures r.Some? ==> && r.value.id == id && r.value.createdBy == caller
                        && r.value.title == reply.title.value
                        && r.value.description == reply.description
                        && r.value.totalDuration == reply.totalDuration
                        && |r.value.stages| == |reply.stages|
                        && (forall k :: 0 <= k < |reply.stages| ==> CastStage(reply.stages[k]) == Some(r.value.stages[k]))
                        && (req.skillLevel.None? <==> r.value.skillLevel.None?)
                        && (req.skillLevel.Some? ==> SkillLevelName(r.value.skillLevel.value) == req.skillLevel.value)
                        && r.value.includeProjects == req.includeProjects.GetOr(false)
                        && r.value.techStack == ToTechStack(t)
                        && r.value.createdAt == now
  {
    if !Present(reply.title) then None
    else
      var level := match req.skillLevel
                   case None => Some(None)
                   case Some(s) => match ParseSkillLevel(s)
                                   case None => None
                                   case Some(l) => Some(Some(l));
      match level
      case None => None
      case Some(lvl) =>
        match MapAll(reply.stages, CastStage)
        case None => None
        case Some(stages) =>
          Some(Roadmap(id, reply.title.value, reply.description, reply.totalDuration, lvl,
                       req.includeProjects.GetOr(false), ToTechStack(t), stages,
                       0, 0, 0, caller, now, now))
  }

  /** Appends `id` to the user's list when the user record exists (an update
      of a missing user changes nothing). */
  function PushRoadmap(lists: map<UserId, seq<RoadmapId>>, u: UserId, id: RoadmapId): map<UserId, seq<RoadmapId>> {
    if u in lists then lists[u := lists[u] + [id]] else lists
  }

  /** Filing a consistent roadmap of `caller` under the next fresh id, and
      appending that id to the caller's list, keeps the store valid. */
  lemma SaveKeepsValid(s: Store, caller: UserId, saved: Roadmap)
    requires Valid(s) && saved.id == s.nextId && saved.createdBy == caller && Consistent(saved)
    ensures Valid(Store(s.roadmaps[s.nextId := saved], PushRoadmap(s.userRoadmaps, caller, s.nextId), s.nextId + 1))
  {
    var s' := Store(s.roadmaps[s.nextId := saved], PushRoadmap(s.userRoadmaps, caller, s.nextId), s.nextId + 1);
    assert s.nextId !in s.roadmaps;
    forall k | k in s'.roadmaps
      ensures s'.roadmaps[k].id == k && k < s'.nextId && Consistent(s'.roadmaps[k])
    {
      if k != s.nextId {
        assert s'.roadmaps[k] == s.roadmaps[k];
      }
    }
    forall k | k in s'.roadmaps && s'.roadmaps[k].createdBy in s'.userRoadmaps
      ensures k in s'.userRoadmaps[s'.roadmaps[k].createdBy]
    {
      var u := s'.roadmaps[k].createdBy;
      if k != s.nextId {
        assert s'.roadmaps[k] == s.roadmaps[k];
        assert k in s.userRoadmaps[u];
        if u == caller {
          assert s'.userRoadmaps[u] == s.userRoadmaps[u] + [s.nextId];
        }
      } else {
        assert s'.userRoadmaps[u] == s.userRoadmaps[u] + [s.nextId];
      }
    }
    forall u, i | u in s'.userRoadmaps && 0 <= i < |s'.userRoadmaps[u]|
      ensures s'.userRoadmaps[u][i] in s'.roadmaps && s'.roadmaps[s'.userRoadmaps[u][i]].createdBy == u
    {
      if u == caller && i == |s'.userRoadmaps[u]| - 1 {
      } else {
        assert s'.userRoadmaps[u][i] == s.userRoadmaps[u][i];
      }
    }
  }

  /** The first half of `POST /roadmaps/generate`: prompt, AI call, JSON
      extraction and parsing, each failure with its own cause. */
  function AskAi(req: GenerateRequest, ai: seq<string> -> Option<string>, parse: string -> Option<Reply>): (r: Result<Reply>)
    ensures r.Err? ==> r.error.GenerationFailed?
    ensures req.techStack.None? ==> r == Err(GenerationFailed(MissingTechStack))
    ensures req.techStack.Some? ==>
              var answer := ai(PromptLines(req).value);
              && (answer.None? ==> r == Err(GenerationFailed(AiUnavailable)))
              && (answer.Some? && !HasBraceSpan(answer.value) ==> r == Err(GenerationFailed(InvalidAiResponse)))
              && (answer.Some? && HasBraceSpan(answer.value) ==>
                    r == match parse(JsonSpan(answer.value).value)
                         case None => Err(GenerationFailed(UnparseableJson))
                         case Some(reply) => Ok(reply))
  {
    match PromptLines(req)
    case None => Err(GenerationFailed(MissingTechStack))
    case Some(prompt) =>
      match ai(prompt)
      case None => Err(GenerationFailed(AiUnavailable))
      case Some(text) =>
        match JsonSpan(text)
        case None => Err(GenerationFailed(InvalidAiResponse))
        case Some(json) =>
          match parse(json)
          case None => Err(GenerationFailed(UnparseableJson))
          case Some(reply) => Ok(reply)
  }

  /** `POST /roadmaps/generate`. `ai` stands for the generation service (the
      prompt lines in, the reply text out, nothing on failure) and `parse` for
      `JSON.parse`. On success the roadmap is saved under a fresh id and
      appended to the caller's list; on any failure nothing is saved. */
  function Generate(s: Store, caller: UserId, req: GenerateRequest,
                    ai: seq<string> -> Option<string>, parse: string -> Option<Reply>, now: Time): (res: (Store, Result<Roadmap>))
    ensures res.1.Err? ==> res.0 == s && res.1.error.GenerationFailed?
    ensures res.1.Ok? ==> && res.1.value.id == s.nextId
                          && res.1.value.createdBy == caller
                          && Consistent(res.1.value)
                          && res.0.roadmaps == s.roadmaps[s.nextId := res.1.value]
                          && res.0.userRoadmaps == PushRoadmap(s.userRoadmaps, caller, s.nextId)
    ensures Valid(s) ==> Valid(res.0)
    ensures Valid(s) && res.1.Ok? ==> res.1.value.id !in s.roadmaps
    ensures res.1.Ok? <==> && AskAi(req, ai, parse).Ok?
                           && NewRoadmap(s.nextId, caller, req, req.techStack.value, AskAi(req, ai, parse).value, now).Some?
    ensures AskAi(req, ai, parse).Err? ==> res.1 == Err(AskAi(req, ai, parse).error)
    ensures AskAi(req, ai, parse).Ok?
            && NewRoadmap(s.nextId, caller, req, req.techStack.value, AskAi(req, ai, parse).value, now).None?
            ==> res.1 == Err(GenerationFailed(ValidationFailed))
    ensures res.1.Ok? ==> res.1.value == Derive(NewRoadmap(s.nextId, caller, req, req.techStack.value, AskAi(req, ai, parse).value, now).value, now)
  {
    match AskAi(req, ai, parse)
    case Err(e) => (s, Err(e))
    case Ok(reply) =>
      match NewRoadmap(s.nextId, caller, req, req.techStack.value, reply, now)
      case None => (s, Err(GenerationFailed(ValidationFailed)))
      case Some(doc) =>
        var saved := Derive(doc, now);
        var s' := Store(s.roadmaps[s.nextId := saved], PushRoadmap(s.userRoadmaps, caller, s.nextId), s.nextId + 1);
        assert Valid(s) ==> Valid(s') by {
          if Valid(s) {
            SaveKeepsValid(s, caller, saved);
          }
        }
        (s', Ok(saved))
  }

  /** A reply without a `{ ... }` span fails generation with "Invalid response
      from AI", and nothing is saved or appended. */
  lemma GenerateRejectsReplyWithoutJson(s: Store, caller: UserId, req: GenerateRequest,
                                        ai: seq<string> -> Option<string>, parse: string -> Option<Reply>, now: Time)
    requires req.techStack.Some?
    requires ai(PromptLines(req).value).Some? && !HasBraceSpan(ai(PromptLines(req).value).value)
    ensures Generate(s, caller, req, ai, parse, now) == (s, Err(GenerationFailed(InvalidAiResponse)))
    ensures Detail(Generate(s, caller, req, ai, parse, now).1.error.cause) == Some("Invalid response from AI")
  {
  }

  /** Once the AI has answered with `text`, the first half of the route
      yields `reply` exactly when `text` has a `{ ... }` span that parses to
      `reply`. */
  lemma AskAiSucceeds(req: GenerateRequest, ai: seq<string> -> Option<string>, parse: string -> Option<Reply>,
                      text: string, reply: Reply)
    requires req.techStack.Some?
    requires ai(PromptLines(req).value) == Some(text)
    ensures AskAi(req, ai, parse) == Ok(reply) <==> HasBraceSpan(text) && parse(JsonSpan(text).value) == Some(reply)
  {
  }

  /** With a parsed reply that casts, the route answers with the new document
      as the pre-save hook leaves it. */
  lemma GenerateSaves(s: Store, caller: UserId, req: GenerateRequest,
                      ai: seq<string> -> Option<string>, parse: string -> Option<Reply>, now: Time, reply: Reply)
    requires AskAi(req, ai, parse) == Ok(reply)
    requires NewRoadmap(s.nextId, caller, req, req.techStack.value, reply, now).Some?
    ensures Generate(s, caller, req, ai, parse, now).1
              == Ok(Derive(NewRoadmap(s.nextId, caller, req, req.techStack.value, reply, now).value, now))
  {
  }

  /** The document as first saved: the reply's and the request's fields,
      the caller as owner, both timestamps `now`, and the derived total. */
  lemma SavedDocument(id: RoadmapId, caller: UserId, req: GenerateRequest, t: TechLists, reply: Reply, now: Time)
    requires NewRoadmap(id, caller, req, t, reply, now).Some?
    ensures var d := Derive(NewRoadmap(id, caller, req, t, reply, now).value, now);
            && d.id == id
            && d.title == reply.title.value
            && d.description == reply.description
            && d.totalDuration == reply.totalDuration
            && |d.stages| == |reply.stages|
            && d.includeProjects == req.includeProjects.GetOr(false)
            && d.techStack == ToTechStack(t)
            && d.createdBy == caller
            && d.createdAt == now && d.updatedAt == now
            && d.totalTopics == |AllTopics(d.stages)|
  {
    var doc := NewRoadmap(id, caller, req, t, reply, now).value;
    DerivedCounters(doc, now);
    assert Derive(doc, now).stages == doc.stages;
  }

  /** When every step succeeds, the saved roadmap carries the request's skill
      level, project flag and technologies, the reply's title, description,
      duration and stages, the caller as owner, and counters derived from the
      stages; it is filed under a fresh id, added to the caller's list, and
      no other roadmap changes. */
  lemma GenerateSuccess(s: Store, caller: UserId, req: GenerateRequest,
                        ai: seq<string> -> Option<string>, parse: string -> Option<Reply>, now: Time,
                        text: string, reply: Reply)
    requires Valid(s)
    requires req.techStack.Some?
    requires ai(PromptLines(req).value) == Some(text)
    requires HasBraceSpan(text) && parse(JsonSpan(text).value) == Some(reply)
    requires NewRoadmap(s.nextId, caller, req, req.techStack.value, reply, now).Some?
    ensures var (s', res) := Generate(s, caller, req, ai, parse, now);
            && res.Ok?
            && res.value.title == reply.title.value
            && res.value.description == reply.description
            && res.value.totalDuration == reply.totalDuration
            && |res.value.stages| == |reply.stages|
            && res.value.includeProjects == req.includeProjects.GetOr(false)
            && res.value.techStack == ToTechStack(req.techStack.value)
            && res.value.createdBy == caller
            && res.value.createdAt == now && res.value.updatedAt == now
            && res.value.totalTopics == |AllTopics(res.value.stages)|
            && OwnedBy(s', caller, res.value.id) && !OwnedBy(s, caller, res.value.id)
            && (caller in s.userRoadmaps ==> s'.userRoadmaps[caller] == s.userRoadmaps[caller] + [res.value.id])
            && (forall k :: k in s.roadmaps ==> k in s'.roadmaps && s'.roadmaps[k] == s.roadmaps[k])
  {
    var saved := Derive(NewRoadmap(s.nextId, caller, req, req.techStack.value, reply, now).value, now);
    AskAiSucceeds(req, ai, parse, text, reply);
    GenerateSaves(s, caller, req, ai, parse, now, reply);
    SavedDocument(s.nextId, caller, req, req.techStack.value, reply, now);
    var (s', res) := Generate(s, caller, req, ai, parse, now);
    assert res == Ok(saved);
  }

  // ---------------------------------------------------------------------------
  // GET / and GET /:id
  // ---------------------------------------------------------------------------

  /** Newest first: creation times never increase along the list. */
  predicate NewestFirst(rs: seq<Roadmap>) {
    forall i, j :: 0 <= i < j < |rs| ==> rs[i].createdAt >= rs[j].createdAt
  }

  /** Ids in `m` listed newest first by their roadmaps' creation times. */
  predicate IdsNewestFirst(ids: seq<RoadmapId>, m: map<RoadmapId, Roadmap>) {
    && (forall i :: 0 <= i < |ids| ==> ids[i] in m)
    && (forall i, j :: 0 <= i < j < |ids| ==> m[ids[i]].createdAt >= m[ids[j]].createdAt)
  }

  predicate Distinct(ids: seq<RoadmapId>) {
    forall i, j :: 0 <= i < j < |ids| ==> ids[i] != ids[j]
  }

  /** An id at least as new as every id of a newest-first list can go in front. */
  lemma ConsNewestFirst(x: RoadmapId, rest: seq<RoadmapId>, m: map<RoadmapId, Roadmap>)
    requires IdsNewestFirst(rest, m) && x in m
    requires forall j :: 0 <= j < |rest| ==> m[x].createdAt >= m[rest[j]].createdAt
    ensures IdsNewestFirst([x] + rest, m)
  {
    var r := [x] + rest;
    assert forall j :: 1 <= j < |r| ==> r[j] == rest[j - 1];
  }

  /** An id missing from a list of distinct ids can go in front. */
  lemma ConsDistinct(x: RoadmapId, rest: seq<RoadmapId>)
    requires Distinct(rest) && x !in rest
    ensures Distinct([x] + rest)
  {
    var r := [x] + rest;
    assert forall j :: 1 <= j < |r| ==> r[j] == rest[j - 1];
  }

  /** Inserts id `k` into a newest-first id list, after every id at least as new. */
  function InsertNewestFirst(ids: seq<RoadmapId>, k: RoadmapId, m: map<RoadmapId, Roadmap>): (r: seq<RoadmapId>)
    requires IdsNewestFirst(ids, m) && k in m
    ensures IdsNewestFirst(r, m)
    ensures forall y :: y in r <==> y in ids || y == k
    ensures Distinct(ids) && k !in ids ==> Distinct(r)
  {
    if |ids| == 0 || m[ids[0]].createdAt < m[k].createdAt then
      ConsNewestFirst(k, ids, m);
      if Distinct(ids) && k !in ids then ConsDistinct(k, ids); [k] + ids else [k] + ids
    else
      var x, tl := ids[0], ids[1..];
      assert IdsNewestFirst(tl, m) by {
        assert forall j :: 0 <= j < |tl| ==> tl[j] == ids[j + 1];
      }
      var rest := InsertNewestFirst(tl, k, m);
      assert forall j :: 0 <= j < |rest| ==> m[x].createdAt >= m[rest[j]].createdAt by {
        forall j | 0 <= j < |rest| ensures m[x].createdAt >= m[rest[j]].createdAt {
          if rest[j] != k {
            assert rest[j] in rest;
            assert rest[j] in tl;
            var i :| 0 <= i < |tl| && tl[i] == rest[j];
            assert tl[i] == ids[i + 1];
          }
        }
      }
      ConsNewestFirst(x, rest, m);
      assert ids == [x] + tl;
      if Distinct(ids) && k !in ids then
        assert Distinct(tl) by {
          assert forall j :: 0 <= j < |tl| ==> tl[j] == ids[j + 1];
        }
        assert x !in tl by {
          assert forall j :: 0 <= j < |tl| ==> tl[j] == ids[j + 1];
        }
        ConsDistinct(x, rest);
        [x] + rest
      else [x] + rest
  }

  /** The ids of the caller's roadmaps. */
  function OwnedIds(s: Store, caller: UserId): set<RoadmapId> {
    set k | k in s.roadmaps && s.roadmaps[k].createdBy == caller
  }

  /** Orders a set of ids newest first, each id once. */
  method SortNewestFirst(keys: set<RoadmapId>, m: map<RoadmapId, Roadmap>) returns (ids: seq<RoadmapId>)
    requires keys <= m.Keys
    ensures IdsNewestFirst(ids, m) && Distinct(ids)
    ensures forall k :: k in ids <==> k in keys
  {
    var remaining := keys;
    ids := [];
    while remaining != {}
      invariant remaining <= keys
      invariant IdsNewestFirst(ids, m) && Distinct(ids)
      invariant forall k :: k in ids <==> k in keys - remaining
      decreases |remaining|
    {
      var k :| k in remaining;
      ids := InsertNewestFirst(ids, k, m);
      remaining := remaining - {k};
    }
  }

  /** `GET /roadmaps`: exactly the caller's roadmaps, each once, newest first. */
  method List(s: Store, caller: UserId) returns (r: seq<Roadmap>)
    requires Valid(s)
    ensures NewestFirst(r)
    ensures forall i :: 0 <= i < |r| ==> OwnedBy(s, caller, r[i].id) && s.roadmaps[r[i].id] == r[i]
    ensures forall k :: OwnedBy(s, caller, k) ==> s.roadmaps[k] in r
    ensures forall i, j :: 0 <= i < j < |r| ==> r[i].id != r[j].id
  {
    var ids := SortNewestFirst(OwnedIds(s, caller), s.roadmaps);
    r := seq(|ids|, i requires 0 <= i < |ids| => s.roadmaps[ids[i]]);
    assert forall i :: 0 <= i < |ids| ==> ids[i] in ids && r[i].id == ids[i];
    forall k | OwnedBy(s, caller, k) ensures s.roadmaps[k] in r {
      assert k in OwnedIds(s, caller);
      assert k in ids;
      var i :| 0 <= i < |ids| && ids[i] == k;
      assert r[i] == s.roadmaps[k];
    }
  }

  /** `GET /roadmaps/:id`: the roadmap when the caller owns it, otherwise
      "Roadmap not found", whether it is missing or someone else's. */
  function Get(s: Store, caller: UserId, id: RoadmapId): (r: Result<Roadmap>)
    ensures r.Ok? <==> OwnedBy(s, caller, id)
    ensures r.Ok? ==> r.value == s.roadmaps[id]
    ensures r.Err? ==> r.error == RoadmapNotFound && Status(r.error) == 404
  {
    if OwnedBy(s, caller, id) then Ok(s.roadmaps[id]) else Err(RoadmapNotFound)
  }

  // ---------------------------------------------------------------------------
  // PATCH /:roadmapId/topics/:topicId/complete
  // ---------------------------------------------------------------------------

  /** Some topic of some stage carries `tid`. */
  predicate HasTopic(stages: seq<Stage>, tid: TopicId) {
    exists i, k :: 0 <= i < |stages| && 0 <= k < |stages[i].topics| && stages[i].topics[k].id == tid
  }

  /** The loop body: a matching topic takes the requested flag and a
      completion time exactly when the flag is set. */
  function MarkTopic(t: Topic, tid: TopicId, completed: bool, now: Time): (t': Topic)
    ensures t.id == tid ==> t'.completed == completed && (t'.completedAt.Some? <==> completed)
    ensures t.id == tid && completed ==> t'.completedAt == Some(now)
    ensures t.id != tid ==> t' == t
    ensures t' == t.(completed := t'.completed, completedAt := t'.completedAt)
  {
    if t.id == tid then t.(completed := completed, completedAt := if completed then Some(now) else None) else t
  }

  /** Both nested loops: every topic whose id matches is updated, not only the first. */
  function MarkStages(stages: seq<Stage>, tid: TopicId, completed: bool, now: Time): (r: seq<Stage>)
    ensures |r| == |stages|
    ensures forall i :: 0 <= i < |stages| ==>
              && r[i] == stages[i].(topics := r[i].topics)
              && |r[i].topics| == |stages[i].topics|
              && forall k :: 0 <= k < |stages[i].topics| ==> r[i].topics[k] == MarkTopic(stages[i].topics[k], tid, completed, now)
  {
    seq(|stages|, i requires 0 <= i < |stages| =>
      stages[i].(topics := seq(|stages[i].topics|, k requires 0 <= k < |stages[i].topics| =>
        MarkTopic(stages[i].topics[k], tid, completed, now))))
  }

  /** `PATCH .../complete`: "Roadmap not found" unless the caller owns the
      roadmap, "Topic not found" when no topic has the id (nothing saved in
      either case); otherwise every matching topic is updated and the
      roadmap is saved, re-deriving its counters. */
  function PatchTopic(s: Store, caller: UserId, rid: RoadmapId, tid: TopicId, completed: bool, now: Time): (res: (Store, Result<Roadmap>))
    ensures !OwnedBy(s, caller, rid) ==> res == (s, Err(RoadmapNotFound))
    ensures OwnedBy(s, caller, rid) && !HasTopic(s.roadmaps[rid].stages, tid) ==> res == (s, Err(TopicNotFound))
    ensures res.1.Ok? ==> && OwnedBy(s, caller, rid)
                          && Consistent(res.1.value)
                          && res.0 == s.(roadmaps := s.roadmaps[rid := res.1.value])
    ensures Valid(s) ==> Valid(res.0)
  {
    if !OwnedBy(s, caller, rid) then (s, Err(RoadmapNotFound))
    else
      var doc := s.roadmaps[rid];
      if !HasTopic(doc.stages, tid) then (s, Err(TopicNotFound))
      else
        var saved := Derive(doc.(stages := MarkStages(doc.stages, tid, completed, now)), now);
        (s.(roadmaps := s.roadmaps[rid := saved]), Ok(saved))
  }

  /** A successful update changes only the matched topics' flag and time:
      every stage field other than its topics is kept, topic order and every
      topic field but `completed` and `completedAt` are kept, every matched
      topic takes the requested flag (with the time `now` exactly when set),
      every other topic is as it was, and the counters agree with the new
      flags. */
  lemma PatchTopicEffect(s: Store, caller: UserId, rid: RoadmapId, tid: TopicId, completed: bool, now: Time)
    requires OwnedBy(s, caller, rid) && HasTopic(s.roadmaps[rid].stages, tid)
    ensures var (s', res) := PatchTopic(s, caller, rid, tid, completed, now);
            var before := s.roadmaps[rid];
            && res.Ok?
            && res.value == before.(stages := res.value.stages, totalTopics := res.value.totalTopics,
                                    completedTopics := res.value.completedTopics, progress := res.value.progress,
                                    updatedAt := now)
            && res.value.stages == MarkStages(before.stages, tid, completed, now)
            && |res.value.stages| == |before.stages|
            && (forall i :: 0 <= i < |before.stages| ==>
                  && res.value.stages[i] == before.stages[i].(topics := res.value.stages[i].topics)
                  && |res.value.stages[i].topics| == |before.stages[i].topics|
                  && forall k :: 0 <= k < |before.stages[i].topics| ==>
                       var t, t' := before.stages[i].topics[k], res.value.stages[i].topics[k];
                       && t' == t.(completed := t'.completed, completedAt := t'.completedAt)
                       && (t.id == tid ==> t'.completed == completed && (t'.completedAt.Some? <==> completed))
                       && (t.id == tid && completed ==> t'.completedAt == Some(now))
                       && (t.id != tid ==> t' == t))
            && res.value.totalTopics == TotalTopics(before.stages)
            && res.value.completedTopics == CompletedIn(AllTopics(res.value.stages))
  {
    var (s', res) := PatchTopic(s, caller, rid, tid, completed, now);
    var doc := s.roadmaps[rid];
    TotalTopicsSameShape(doc.stages, MarkStages(doc.stages, tid, completed, now));
    CountsAreFlatCounts(res.value.stages);
  }

  /** The topic count depends only on how many topics each stage has. */
  lemma {:induction false} TotalTopicsSameShape(a: seq<Stage>, b: seq<Stage>)
    requires |a| == |b| && forall i :: 0 <= i < |a| ==> |a[i].topics| == |b[i].topics|
    ensures TotalTopics(a) == TotalTopics(b)
    decreases |a|
  {
    if |a| > 0 {
      TotalTopicsSameShape(a[..|a| - 1], b[..|b| - 1]);
    }
  }

  /** Sending the same update twice leaves the topics as the first one did. */
  lemma MarkStagesIdempotent(stages: seq<Stage>, tid: TopicId, completed: bool, now: Time)
    ensures MarkStages(MarkStages(stages, tid, completed, now), tid, completed, now) == MarkStages(stages, tid, completed, now)
  {
    var once := MarkStages(stages, tid, completed, now);
    var twice := MarkStages(once, tid, completed, now);
    assert forall i :: 0 <= i < |stages| ==> twice[i].topics == once[i].topics;
  }

  // ---------------------------------------------------------------------------
  // DELETE /:id
  // ---------------------------------------------------------------------------

  /** `$pull`: drops every occurrence of `id` from the user's list, if the user record exists. */
  function PullRoadmap(lists: map<UserId, seq<RoadmapId>>, u: UserId, id: RoadmapId): map<UserId, seq<RoadmapId>> {
    if u in lists then lists[u := Seqs.RemoveAll(lists[u], id)] else lists
  }

  /** Removing an owned roadmap and pulling its id from the owner's list
      keeps the store valid. */
  lemma RemoveKeepsValid(s: Store, caller: UserId, id: RoadmapId)
    requires Valid(s) && OwnedBy(s, caller, id)
    ensures Valid(Store(s.roadmaps - {id}, PullRoadmap(s.userRoadmaps, caller, id), s.nextId))
  {
    var s' := Store(s.roadmaps - {id}, PullRoadmap(s.userRoadmaps, caller, id), s.nextId);
    forall u, i | u in s'.userRoadmaps && 0 <= i < |s'.userRoadmaps[u]|
      ensures s'.userRoadmaps[u][i] in s'.roadmaps && s'.roadmaps[s'.userRoadmaps[u][i]].createdBy == u
    {
      var k := s'.userRoadmaps[u][i];
      assert k in s'.userRoadmaps[u];
      assert k in s.userRoadmaps[u];
      var j :| 0 <= j < |s.userRoadmaps[u]| && s.userRoadmaps[u][j] == k;
    }
  }

  /** `DELETE /roadmaps/:id`: "Roadmap not found" (nothing changes) unless the
      caller owns it; otherwise the roadmap is removed and its id pulled from
      the caller's list. */
  function Delete(s: Store, caller: UserId, id: RoadmapId): (res: (Store, Result<string>))
    ensures res.1.Ok? <==> OwnedBy(s, caller, id)
    ensures res.1.Err? ==> res.0 == s && res.1.error == RoadmapNotFound
    ensures res.1.Ok? ==> && res.0.roadmaps == s.roadmaps - {id}
                          && res.0.nextId == s.nextId
                          && res.0.userRoadmaps == PullRoadmap(s.userRoadmaps, caller, id)
                          && (caller in s.userRoadmaps ==> id !in res.0.userRoadmaps[caller])
                          && res.1.value == "Roadmap deleted successfully"
    ensures Valid(s) ==> Valid(res.0)
  {
    if !OwnedBy(s, caller, id) then (s, Err(RoadmapNotFound))
    else
      var s' := Store(s.roadmaps - {id}, PullRoadmap(s.userRoadmaps, caller, id), s.nextId);
      assert Valid(s) ==> Valid(s') by {
        if Valid(s) {
          RemoveKeepsValid(s, caller, id);
        }
      }
      (s', Ok("Roadmap deleted successfully"))
  }

  /** Another user's roadmap is invisible: get, update and delete all answer
      "Roadmap not found" and change nothing, exactly as for a missing id. */
  lemma ForeignRoadmapIsNotFound(s: Store, caller: UserId, id: RoadmapId, tid: TopicId, completed: bool, now: Time)
    requires id in s.roadmaps && s.roadmaps[id].createdBy != caller
    ensures Get(s, caller, id) == Err(RoadmapNotFound)
    ensures PatchTopic(s, caller, id, tid, completed, now) == (s, Err(RoadmapNotFound))
    ensures Delete(s, caller, id) == (s, Err(RoadmapNotFound))
    ensures Get(s.(roadmaps := s.roadmaps - {id}), caller, id) == Get(s, caller, id)
  {
  }

  /** Deleting a roadmap just filed under a fresh id restores the roadmaps
      and the owner's list as they were before. */
  lemma DeleteUndoesSave(s: Store, s1: Store, caller: UserId, saved: Roadmap)
    requires Valid(s) && saved.id == s.nextId && saved.createdBy == caller
    requires s1.roadmaps == s.roadmaps[s.nextId := saved]
    requires s1.userRoadmaps == PushRoadmap(s.userRoadmaps, caller, s.nextId)
    ensures var (s2, res) := Delete(s1, caller, s.nextId);
            && res.Ok?
            && s2.roadmaps == s.roadmaps
            && (caller in s.userRoadmaps ==> s2.userRoadmaps[caller] == s.userRoadmaps[caller])
  {
    var id := s.nextId;
    assert id !in s.roadmaps;
    assert s1.roadmaps - {id} == s.roadmaps;
    if caller in s.userRoadmaps {
      var old_ := s.userRoadmaps[caller];
      assert forall i :: 0 <= i < |old_| ==> old_[i] != id;
      Seqs.RemoveAllAppend(old_, id);
      Seqs.RemoveAbsent(old_, id);
    }
  }

  /** Deleting a roadmap just generated restores the roadmaps and the caller's
      list as they were before the generation. */
  lemma DeleteUndoesGenerate(s: Store, caller: UserId, req: GenerateRequest,
                             ai: seq<string> -> Option<string>, parse: string -> Option<Reply>, now: Time)
    requires Valid(s)
    requires Generate(s, caller, req, ai, parse, now).1.Ok?
    ensures var (s1, res) := Generate(s, caller, req, ai, parse, now);
            var s2 := Delete(s1, caller, res.value.id).0;
            && Delete(s1, caller, res.value.id).1.Ok?
            && s2.roadmaps == s.roadmaps
            && (caller in s.userRoadmaps ==> s2.userRoadmaps[caller] == s.userRoadmaps[caller])
  {
    var (s1, res) := Generate(s, caller, req, ai, parse, now);
    DeleteUndoesSave(s, s1, caller, res.value);
  }
}
