/**
 * The four-step roadmap request form: the form data, the technology toggle,
 * the per-step guard on "Continue", the clamped Back/Continue moves, the
 * summary count, and the wizard as a state machine driven by the controls
 * each step renders.
 */
module GenerateWizard {
  import Text
  import Seqs
  import opened RoadmapModel

  datatype TechCategory = Languages | Frameworks | Libraries | Databases | DevopsTech | OtherTech

  datatype FormData = FormData(roadmapName: string, skillLevel: string, includeProjects: bool, techStack: TechStack)

  const InitialForm: FormData := FormData("", "", false, TechStack([], [], [], [], [], []))

  /** `techStack[category]` */
  function Selected(ts: TechStack, c: TechCategory): seq<string> {
    match c
    case Languages => ts.languages
    case Frameworks => ts.frameworks
    case Libraries => ts.libraries
    case Databases => ts.databases
    case DevopsTech => ts.devops
    case OtherTech => ts.otherTech
  }

  /** `{ ...techStack, [category]: xs }`: one list replaced, the others kept. */
  function WithSelected(ts: TechStack, c: TechCategory, xs: seq<string>): (r: TechStack)
    ensures Selected(r, c) == xs
    ensures forall d :: d != c ==> Selected(r, d) == Selected(ts, d)
  {
    match c
    case Languages => ts.(languages := xs)
    case Frameworks => ts.(frameworks := xs)
    case Libraries => ts.(libraries := xs)
    case Databases => ts.(databases := xs)
    case DevopsTech => ts.(devops := xs)
    case OtherTech => ts.(otherTech := xs)
  }

  /** `handleTechStackChange`: a selected technology is removed (every
      occurrence of it, the other selections keeping their order and
      multiplicity, see `Seqs.RemoveAllSplit`); an unselected one is appended
      at the end. Nothing else in the form changes. */
  function ToggleTech(form: FormData, c: TechCategory, tech: string): (f: FormData)
    ensures f == form.(techStack := f.techStack)
    ensures forall d :: d != c ==> Selected(f.techStack, d) == Selected(form.techStack, d)
    ensures tech in Selected(f.techStack, c) <==> tech !in Selected(form.techStack, c)
    ensures tech in Selected(form.techStack, c) ==>
              && Selected(f.techStack, c) == Seqs.RemoveAll(Selected(form.techStack, c), tech)
              && multiset(Selected(f.techStack, c)) == multiset(Selected(form.techStack, c))[tech := 0]
              && |Selected(f.techStack, c)| == |Selected(form.techStack, c)| - multiset(Selected(form.techStack, c))[tech]
              && forall t :: t != tech ==> (t in Selected(f.techStack, c) <==> t in Selected(form.techStack, c))
    ensures tech !in Selected(form.techStack, c) ==> Selected(f.techStack, c) == Selected(form.techStack, c) + [tech]
  {
    var current := Selected(form.techStack, c);
    var next := if tech in current then Seqs.RemoveAll(current, tech) else current + [tech];
    Seqs.RemoveAllLength(current, tech);
    Seqs.RemoveAllCount(current, tech);
    form.(techStack := WithSelected(form.techStack, c, next))
  }

  /** Selecting a technology and deselecting it again gives back the form. */
  lemma ToggleTwiceRestores(form: FormData, c: TechCategory, tech: string)
    requires tech !in Selected(form.techStack, c)
    ensures ToggleTech(ToggleTech(form, c, tech), c, tech) == form
  {
    var once := ToggleTech(form, c, tech);
    var current := Selected(form.techStack, c);
    Seqs.RemoveAllAppend(current, tech);
    Seqs.RemoveAbsent(current, tech);
    var twice := ToggleTech(once, c, tech);
    assert forall d :: Selected(twice.techStack, d) == Selected(form.techStack, d);
  }

  /** `Object.values(techStack).flat()`: every selection, category after category. */
  function AllSelected(ts: TechStack): seq<string> {
    ts.languages + ts.frameworks + ts.libraries + ts.databases + ts.devops + ts.otherTech
  }

  /** The summary's "Technologies: N selected". */
  function SummaryCount(ts: TechStack): nat {
    |AllSelected(ts)|
  }

  /** Some category has a selection. */
  predicate AnySelected(ts: TechStack) {
    exists c :: |Selected(ts, c)| > 0
  }

  /** The summary count is the sum of the six list lengths, and is positive
      exactly when some category has a selection. */
  lemma SummaryCountIsSum(ts: TechStack)
    ensures SummaryCount(ts) == |ts.languages| + |ts.frameworks| + |ts.libraries|
                                + |ts.databases| + |ts.devops| + |ts.otherTech|
    ensures SummaryCount(ts) > 0 <==> AnySelected(ts)
  {
    if SummaryCount(ts) > 0 {
      if |ts.languages| > 0 { assert |Selected(ts, Languages)| > 0; }
      else if |ts.frameworks| > 0 { assert |Selected(ts, Frameworks)| > 0; }
      else if |ts.libraries| > 0 { assert |Selected(ts, Libraries)| > 0; }
      else if |ts.databases| > 0 { assert |Selected(ts, Databases)| > 0; }
      else if |ts.devops| > 0 { assert |Selected(ts, DevopsTech)| > 0; }
      else { assert |Selected(ts, OtherTech)| > 0; }
    }
  }

  /** Toggling changes the summary count by one for a new technology, and
      by the number of its occurrences for a selected one. */
  lemma ToggleChangesCount(form: FormData, c: TechCategory, tech: string)
    ensures var before := Selected(form.techStack, c);
            var after := SummaryCount(ToggleTech(form, c, tech).techStack);
            if tech in before then after == SummaryCount(form.techStack) - multiset(before)[tech]
            else after == SummaryCount(form.techStack) + 1
  {
    var f := ToggleTech(form, c, tech);
    SummaryCountIsSum(form.techStack);
    SummaryCountIsSum(f.techStack);
    assert forall d :: d != c ==> |Selected(f.techStack, d)| == |Selected(form.techStack, d)|;
    match c
    case Languages =>
    case Frameworks =>
    case Libraries =>
    case Databases =>
    case DevopsTech =>
    case OtherTech =>
  }

  /** `canProceedToNext`: step 1 needs a name with a non-whitespace
      character, step 2 a skill level, step 3 some technology; any other
      step may always proceed. */
  function CanProceed(step: int, form: FormData): (ok: bool)
    ensures step == 1 ==> (ok <==> exists k :: 0 <= k < |form.roadmapName| && !Text.IsSpace(form.roadmapName[k]))
    ensures step == 2 ==> (ok <==> form.skillLevel != "")
    ensures step == 3 ==> (ok <==> AnySelected(form.techStack))
    ensures step != 1 && step != 2 && step != 3 ==> ok
  {
    if step == 1 then Text.Trim(form.roadmapName) != ""
    else if step == 2 then form.skillLevel != ""
    else if step == 3 then
      assert AnySelected(form.techStack) <==> SummaryCount(form.techStack) > 0 by {
        SummaryCountIsSum(form.techStack);
      }
      |AllSelected(form.techStack)| > 0
    else true
  }

  /** The Back button: one step back, never below step 1. */
  function Back(step: int): (s: int)
    ensures step >= 2 ==> s == step - 1
    ensures step <= 2 ==> s == 1
  {
    if step - 1 > 1 then step - 1 else 1
  }

  /** The Continue button: one step on, never beyond step 4. */
  function Continue(step: int): (s: int)
    ensures step <= 3 ==> s == step + 1
    ensures step >= 3 ==> s == 4
  {
    if step + 1 < 4 then step + 1 else 4
  }

  // ---------------------------------------------------------------------------
  // The wizard as a state machine
  // ---------------------------------------------------------------------------

  datatype Wizard = Wizard(step: int, form: FormData)

  const Initial: Wizard := Wizard(1, InitialForm)

  /** What the user can do. Each input exists only on its own step: name and
      project flag on step 1, the skill cards on step 2, the technology
      buttons on step 3. */
  datatype Event =
    | EditName(name: string)
    | SetIncludeProjects(flag: bool)
    | ChooseSkill(level: SkillLevel)
    | ClickTech(category: TechCategory, tech: string)
    | PressBack
    | PressContinue

  /** The navigation bar is rendered below step 4 only. */
  predicate NavigationShown(w: Wizard) {
    w.step < 4
  }

  predicate BackEnabled(w: Wizard) {
    w.step != 1
  }

  predicate ContinueEnabled(w: Wizard) {
    CanProceed(w.step, w.form)
  }

  /** One event; a control that is not rendered or is disabled does nothing. */
  function Next(w: Wizard, e: Event): (w': Wizard)
    ensures e.PressBack? || e.PressContinue? ==> w'.form == w.form
    ensures !(e.PressBack? || e.PressContinue?) ==> w'.step == w.step
    ensures e.PressContinue? && w'.step != w.step ==> ContinueEnabled(w) && w'.step == w.step + 1
    ensures e.PressBack? && w'.step != w.step && w.step >= 1 ==> w.step > 1 && w'.step == w.step - 1
    ensures e.PressContinue? ==> (w'.step == w.step + 1 <==> w.step < 4 && ContinueEnabled(w))
    ensures e.PressBack? && w.step >= 1 ==> (w'.step == w.step - 1 <==> 1 < w.step < 4)
    ensures e.EditName? ==> w'.form.roadmapName == (if w.step == 1 then e.name else w.form.roadmapName)
    ensures e.SetIncludeProjects? ==> w'.form.includeProjects == (if w.step == 1 then e.flag else w.form.includeProjects)
    ensures e.ChooseSkill? ==> w'.form.skillLevel == (if w.step == 2 then SkillLevelName(e.level) else w.form.skillLevel)
    ensures e.ClickTech? ==> w'.form == (if w.step == 3 then ToggleTech(w.form, e.category, e.tech) else w.form)
    ensures e.EditName? ==> w'.form == w.form.(roadmapName := w'.form.roadmapName)
    ensures e.SetIncludeProjects? ==> w'.form == w.form.(includeProjects := w'.form.includeProjects)
    ensures e.ChooseSkill? ==> w'.form.(skillLevel := w.form.skillLevel) == w.form
  {
    match e
    case EditName(name) => if w.step == 1 then w.(form := w.form.(roadmapName := name)) else w
    case SetIncludeProjects(b) => if w.step == 1 then w.(form := w.form.(includeProjects := b)) else w
    case ChooseSkill(level) => if w.step == 2 then w.(form := w.form.(skillLevel := SkillLevelName(level))) else w
    case ClickTech(c, tech) => if w.step == 3 then w.(form := ToggleTech(w.form, c, tech)) else w
    case PressBack => if NavigationShown(w) && BackEnabled(w) then w.(step := Back(w.step)) else w
    case PressContinue => if NavigationShown(w) && ContinueEnabled(w) then w.(step := Continue(w.step)) else w
  }

  function Run(w: Wizard, events: seq<Event>): Wizard
    decreases |events|
  {
    if |events| == 0 then w else Run(Next(w, events[0]), events[1..])
  }

  /** The step stays within 1..4, and every step the user has moved past
      still satisfies its guard: the inputs of a passed step are not on
      screen, and going back to it does not let the user continue without
      satisfying it again. */
  predicate Inv(w: Wizard) {
    && 1 <= w.step <= 4
    && (w.step >= 2 ==> CanProceed(1, w.form))
    && (w.step >= 3 ==> CanProceed(2, w.form))
    && (w.step >= 4 ==> CanProceed(3, w.form))
  }

  lemma NextKeepsInv(w: Wizard, e: Event)
    requires Inv(w)
    ensures Inv(Next(w, e))
  {
    var w' := Next(w, e);
    match e
    case EditName(name) =>
    case SetIncludeProjects(b) =>
    case ChooseSkill(level) =>
    case ClickTech(c, tech) =>
      assert w'.form.roadmapName == w.form.roadmapName && w'.form.skillLevel == w.form.skillLevel;
    case PressBack =>
    case PressContinue =>
  }

  /** From the initial form, any sequence of clicks and edits keeps the
      step in 1..4; so when the Generate button (step 4) is reached, the
      form has a name, a skill level and at least one technology. */
  lemma {:induction false} RunKeepsInv(w: Wizard, events: seq<Event>)
    requires Inv(w)
    ensures Inv(Run(w, events))
    decreases |events|
  {
    if |events| > 0 {
      NextKeepsInv(w, events[0]);
      RunKeepsInv(Next(w, events[0]), events[1..]);
    }
  }

  /** The initial wizard satisfies the invariant, so every reachable one does;
      at step 4 the request is complete. */
  lemma ReachableIsComplete(events: seq<Event>)
    ensures 1 <= Run(Initial, events).step <= 4
    ensures Run(Initial, events).step == 4 ==>
              && Text.Trim(Run(Initial, events).form.roadmapName) != ""
              && Run(Initial, events).form.skillLevel != ""
              && SummaryCount(Run(Initial, events).form.techStack) > 0
  {
    RunKeepsInv(Initial, events);
    SummaryCountIsSum(Run(Initial, events).form.techStack);
  }
}
