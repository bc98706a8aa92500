/**
 * The roadmap document: topics nested in stages nested in a roadmap, the
 * schema's enumerations, required fields and defaults, and the save-time
 * derivation of the three counters (`totalTopics`, `completedTopics`,
 * `progress`) that runs before every write of a roadmap.
 */
module RoadmapModel {
  import opened Optional

  type UserId = nat
  type RoadmapId = nat
  /** A topic subdocument's identifier. The database assigns one to every
      topic; nothing makes them unique within a roadmap when the stored
      document supplies its own. */
  type TopicId = nat
  /** A timestamp; the clock is an input everywhere. */
  type Time = nat

  datatype Category = Language | Framework | Library | Database | Devops | Other
  datatype SkillLevel = Beginner | Intermediate | Advanced

  /** The stored spelling of a topic category. */
  function CategoryName(c: Category): string
  {
    match c
    case Language => "language"
    case Framework => "framework"
    case Library => "library"
    case Database => "database"
    case Devops => "devops"
    case Other => "other"
  }

  /** The category enum validator: only the six stored spellings are accepted. */
  function ParseCategory(s: string): (r: Option<Category>)
    ensures r.Some? <==> exists c :: CategoryName(c) == s
    ensures r.Some? ==> CategoryName(r.value) == s
  {
    if s == "language" then assert CategoryName(Language) == s; Some(Language)
    else if s == "framework" then assert CategoryName(Framework) == s; Some(Framework)
    else if s == "library" then assert CategoryName(Library) == s; Some(Library)
    else if s == "database" then assert CategoryName(Database) == s; Some(Database)
    else if s == "devops" then assert CategoryName(Devops) == s; Some(Devops)
    else if s == "other" then assert CategoryName(Other) == s; Some(Other)
    else None
  }

  /** The stored spelling of a skill level. */
  function SkillLevelName(l: SkillLevel): string
  {
    match l
    case Beginner => "beginner"
    case Intermediate => "intermediate"
    case Advanced => "advanced"
  }

  /** The skill-level enum validator. */
  function ParseSkillLevel(s: string): (r: Option<SkillLevel>)
    ensures r.Some? <==> exists l :: SkillLevelName(l) == s
    ensures r.Some? ==> SkillLevelName(r.value) == s
  {
    if s == "beginner" then assert SkillLevelName(Beginner) == s; Some(Beginner)
    else if s == "intermediate" then assert SkillLevelName(Intermediate) == s; Some(Intermediate)
    else if s == "advanced" then assert SkillLevelName(Advanced) == s; Some(Advanced)
    else None
  }

  datatype Topic = Topic(
    id: TopicId,
    title: string,
    resources: seq<string>,
    category: Category,
    project: Option<string>,
    completed: bool,
    completedAt: Option<Time>)

  datatype Stage = Stage(title: string, duration: Option<string>, topics: seq<Topic>)

  /** The six technology lists chosen when the roadmap was requested. */
  datatype TechStack = TechStack(
    languages: seq<string>,
    frameworks: seq<string>,
    libraries: seq<string>,
    databases: seq<string>,
    devops: seq<string>,
    otherTech: seq<string>)

  datatype Roadmap = Roadmap(
    id: RoadmapId,
    title: string,
    description: Option<string>,
    totalDuration: Option<string>,
    skillLevel: Option<SkillLevel>,
    includeProjects: bool,
    techStack: TechStack,
    stages: seq<Stage>,
    progress: nat,
    totalTopics: nat,
    completedTopics: nat,
    createdBy: UserId,
    createdAt: Time,
    updatedAt: Time)

  // ---------------------------------------------------------------------------
  // Untyped input: the shape of the parsed generation reply before the schema
  // casts and validates it. Absent fields are `None`; absent arrays are empty.
  // ---------------------------------------------------------------------------

  datatype RawTopic = RawTopic(
    id: TopicId,
    topicTitle: Option<string>,
    resources: seq<string>,
    category: Option<string>,
    project: Option<string>,
    completed: Option<bool>,
    completedAt: Option<Time>)

  datatype RawStage = RawStage(stageTitle: Option<string>, duration: Option<string>, topics: seq<RawTopic>)

  datatype Reply = Reply(
    title: Option<string>,
    description: Option<string>,
    totalDuration: Option<string>,
    stages: seq<RawStage>)

  /** The schema's `required: true` on a string: present and not empty. */
  predicate Present(s: Option<string>) {
    s.Some? && s.value != ""
  }

  /** Casts one topic: the title is required, the category is required and
      must be one of the six names, `completed` defaults to false. */
  function CastTopic(raw: RawTopic): (r: Option<Topic>)
    ensures r.Some? <==> Present(raw.topicTitle) && raw.category.Some? && ParseCategory(raw.category.value).Some?
    ensures r.Some? ==> && r.value.id == raw.id
                        && r.value.title == raw.topicTitle.value
                        && CategoryName(r.value.category) == raw.category.value
                        && r.value.resources == raw.resources
                        && r.value.project == raw.project
                        && r.value.completed == (raw.completed.Some? && raw.completed.value)
                        && r.value.completedAt == raw.completedAt
  {
    if !Present(raw.topicTitle) || raw.category.None? then None
    else
      match ParseCategory(raw.category.value)
      case None => None
      case Some(c) =>
        Some(Topic(raw.id, raw.topicTitle.value, raw.resources, c, raw.project,
                   raw.completed.GetOr(false), raw.completedAt))
  }

  /** Casts one stage: the stage title is required and every topic must cast. */
  function CastStage(raw: RawStage): (r: Option<Stage>)
    ensures r.Some? <==> Present(raw.stageTitle) && forall k :: 0 <= k < |raw.topics| ==> CastTopic(raw.topics[k]).Some?
    ensures r.Some? ==> && r.value.title == raw.stageTitle.value
                        && r.value.duration == raw.duration
                        && |r.value.topics| == |raw.topics|
                        && forall k :: 0 <= k < |raw.topics| ==> CastTopic(raw.topics[k]) == Some(r.value.topics[k])
  {
    if !Present(raw.stageTitle) then None
    else
      match MapAll(raw.topics, CastTopic)
      case None => None
      case Some(ts) => Some(Stage(raw.stageTitle.value, raw.duration, ts))
  }

  // ---------------------------------------------------------------------------
  // Save-time derivation
  // ---------------------------------------------------------------------------

  /** `topics.filter(t => t.completed).length` */
  function CompletedIn(ts: seq<Topic>): (n: nat)
    ensures n <= |ts|
    ensures n == |ts| <==> forall k :: 0 <= k < |ts| ==> ts[k].completed
    ensures n == 0 <==> forall k :: 0 <= k < |ts| ==> !ts[k].completed
  {
    if |ts| == 0 then 0
    else
      var rest := CompletedIn(ts[1..]);
      assert forall k :: 1 <= k < |ts| ==> ts[k] == ts[1..][k - 1];
      (if ts[0].completed then 1 else 0) + rest
  }

  /** The per-stage running sum of topic counts, in stage order. */
  function TotalTopics(stages: seq<Stage>): nat
  {
    if |stages| == 0 then 0 else TotalTopics(stages[..|stages| - 1]) + |stages[|stages| - 1].topics|
  }

  /** The per-stage running sum of completed-topic counts, in stage order. */
  function CompletedTopics(stages: seq<Stage>): nat
  {
    if |stages| == 0 then 0 else CompletedTopics(stages[..|stages| - 1]) + CompletedIn(stages[|stages| - 1].topics)
  }

  /** Every topic of the roadmap, stage after stage. */
  function AllTopics(stages: seq<Stage>): seq<Topic>
  {
    if |stages| == 0 then [] else AllTopics(stages[..|stages| - 1]) + stages[|stages| - 1].topics
  }

  lemma {:induction false} CompletedInAppend(a: seq<Topic>, b: seq<Topic>)
    ensures CompletedIn(a + b) == CompletedIn(a) + CompletedIn(b)
  {
    if |a| > 0 {
      assert (a + b)[1..] == a[1..] + b;
      CompletedInAppend(a[1..], b);
    } else {
      assert a + b == b;
    }
  }

  /** The stage-by-stage sums count the roadmap's topics: the total is the
      number of topics and the completed count is the number of completed ones. */
  lemma {:induction false} CountsAreFlatCounts(stages: seq<Stage>)
    ensures TotalTopics(stages) == |AllTopics(stages)|
    ensures CompletedTopics(stages) == CompletedIn(AllTopics(stages))
    decreases |stages|
  {
    if |stages| > 0 {
      var init := stages[..|stages| - 1];
      CountsAreFlatCounts(init);
      CompletedInAppend(AllTopics(init), stages[|stages| - 1].topics);
    }
  }

  /** Never more completed topics than topics. */
  lemma {:induction false} CompletedAtMostTotal(stages: seq<Stage>)
    ensures CompletedTopics(stages) <= TotalTopics(stages)
    decreases |stages|
  {
    if |stages| > 0 {
      CompletedAtMostTotal(stages[..|stages| - 1]);
    }
  }

  /** The completed count reaches the total exactly when every topic is completed. */
  lemma AllCompletedIff(stages: seq<Stage>)
    ensures CompletedTopics(stages) == TotalTopics(stages)
            <==> forall k :: 0 <= k < |AllTopics(stages)| ==> AllTopics(stages)[k].completed
  {
    CountsAreFlatCounts(stages);
  }

  /** The completed count is zero exactly when no topic is completed. */
  lemma NoneCompletedIff(stages: seq<Stage>)
    ensures CompletedTopics(stages) == 0
            <==> forall k :: 0 <= k < |AllTopics(stages)| ==> !AllTopics(stages)[k].completed
  {
    CountsAreFlatCounts(stages);
  }

  /** `Math.round(n / d)` for non-negative `n` and positive `d`, in exact
      integer arithmetic (the source computes in floating point and rounds
      halves up): the nearest integer to `n / d`, a tie going up. */
  function RoundDiv(n: nat, d: nat): (r: nat)
    requires d > 0
    ensures d * (2 * r - 1) <= 2 * n < d * (2 * r + 1)
  {
    var q := (2 * n + d) / (2 * d);
    assert 2 * d * q <= 2 * n + d < 2 * d * q + 2 * d;
    q
  }

  lemma MulMonotone(d: nat, a: int, b: int)
    requires a <= b
    ensures d * a <= d * b
  {
  }

  /** Two integers both nearest to `n / d` (ties up) are the same. */
  lemma NearestUnique(n: nat, d: nat, r: int, q: int)
    requires d > 0
    requires d * (2 * r - 1) <= 2 * n < d * (2 * r + 1)
    requires d * (2 * q - 1) <= 2 * n < d * (2 * q + 1)
    ensures r == q
  {
    if r < q {
      MulMonotone(d, 2 * r + 1, 2 * q - 1);
    } else if r > q {
      MulMonotone(d, 2 * q + 1, 2 * r - 1);
    }
  }

  /** Rounding to the nearest integer has only one answer. */
  lemma RoundDivUnique(n: nat, d: nat, r: int)
    requires d > 0
    requires d * (2 * r - 1) <= 2 * n < d * (2 * r + 1)
    ensures r == RoundDiv(n, d)
  {
    NearestUnique(n, d, r, RoundDiv(n, d));
  }

  /** Rounding preserves order of the numerators. */
  lemma RoundDivMonotone(n1: nat, n2: nat, d: nat)
    requires d > 0 && n1 <= n2
    ensures RoundDiv(n1, d) <= RoundDiv(n2, d)
  {
    var r1, r2 := RoundDiv(n1, d), RoundDiv(n2, d);
    if r1 > r2 {
      MulMonotone(d, 2 * r2 + 1, 2 * r1 - 1);
    }
  }

  /** The progress percentage: zero for a roadmap without topics, otherwise
      the completed share of the topics, in percent, rounded half up. */
  function Percent(completed: nat, total: nat): (p: nat)
    requires completed <= total
    ensures p <= 100
    ensures total > 0 ==> total * (2 * p - 1) <= 200 * completed < total * (2 * p + 1)
    ensures completed == 0 ==> p == 0
    ensures total > 0 && completed == total ==> p == 100
  {
    if total > 0 then
      var p := RoundDiv(100 * completed, total);
      RoundDivMonotone(100 * completed, 100 * total, total);
      RoundDivUnique(100 * total, total, 100);
      RoundDivUnique(0, total, 0);
      p
    else 0
  }

  /** Completing more topics never lowers the percentage. */
  lemma PercentMonotone(c1: nat, c2: nat, total: nat)
    requires c1 <= c2 <= total
    ensures Percent(c1, total) <= Percent(c2, total)
  {
    if total > 0 {
      RoundDivMonotone(100 * c1, 100 * c2, total);
    }
  }

  /** The counters of a roadmap agree with its stage/topic tree. */
  predicate Consistent(r: Roadmap) {
    && r.totalTopics == TotalTopics(r.stages)
    && r.completedTopics == CompletedTopics(r.stages)
    && r.completedTopics <= r.totalTopics
    && r.progress == Percent(r.completedTopics, r.totalTopics)
  }

  /** The pre-save hook: stamps `updatedAt` and recomputes the three counters
      from the stages, touching nothing else. */
  function Derive(r: Roadmap, now: Time): (d: Roadmap)
    ensures Consistent(d)
    ensures d == r.(totalTopics := d.totalTopics, completedTopics := d.completedTopics,
                    progress := d.progress, updatedAt := now)
  {
    var total := TotalTopics(r.stages);
    var done := CompletedTopics(r.stages);
    CompletedAtMostTotal(r.stages);
    r.(totalTopics := total, completedTopics := done, progress := Percent(done, total), updatedAt := now)
  }

  /** Counters that agree with the tree are the ones the hook would write. */
  lemma ConsistentIsDerived(r: Roadmap)
    requires Consistent(r)
    ensures Derive(r, r.updatedAt) == r
  {
  }

  /** Saving twice at the same instant is the same as saving once. */
  lemma DeriveIdempotent(r: Roadmap, now: Time)
    ensures Derive(Derive(r, now), now) == Derive(r, now)
  {
    ConsistentIsDerived(Derive(r, now));
  }

  /** The hook reads only `stages`: two roadmaps with the same stages get the same counters. */
  lemma DeriveReadsOnlyStages(r1: Roadmap, r2: Roadmap, now: Time)
    requires r1.stages == r2.stages
    ensures Derive(r1, now).totalTopics == Derive(r2, now).totalTopics
    ensures Derive(r1, now).completedTopics == Derive(r2, now).completedTopics
    ensures Derive(r1, now).progress == Derive(r2, now).progress
  {
  }

  /** The saved counters in terms of the roadmap's topics: the total is the
      number of topics, the completed count the number of completed ones, and
      the percentage is 100 when all of at least one topic are completed and 0
      when none are. */
  lemma {:induction false} DerivedCounters(r: Roadmap, now: Time)
    ensures Derive(r, now).totalTopics == |AllTopics(r.stages)|
    ensures Derive(r, now).completedTopics == CompletedIn(AllTopics(r.stages))
    ensures Derive(r, now).completedTopics <= Derive(r, now).totalTopics
    ensures 0 <= Derive(r, now).progress <= 100
    ensures (forall k :: 0 <= k < |AllTopics(r.stages)| ==> !AllTopics(r.stages)[k].completed)
            ==> Derive(r, now).progress == 0
    ensures |AllTopics(r.stages)| > 0 && (forall k :: 0 <= k < |AllTopics(r.stages)| ==> AllTopics(r.stages)[k].completed)
            ==> Derive(r, now).progress == 100
  {
    CountsAreFlatCounts(r.stages);
    AllCompletedIff(r.stages);
    NoneCompletedIff(r.stages);
  }
}
