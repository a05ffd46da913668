/** The goal store: goals with milestones, their progress percentage, goal
    templates, and the list views by filter and status. Clock readings and
    `Date.now()` stamps are parameters. */
module GoalStore {
  import opened Wrappers
  import opened Seqs
  import opened Text

  datatype GoalType = Learning | Skill | Travel | HabitGoal | Creation | CustomGoal

  datatype GoalStatus = NotStarted | InProgress | Completed | Paused | Archived

  datatype GoalPriority = High | Medium | Low

  /** A goal's progress; dividing by an empty milestone list yields `NaN`. */
  datatype Progress = Percent(value: int) | NaN

  datatype Milestone = Milestone(
    id: string,
    title: string,
    description: Option<string>,
    targetDate: Option<string>,
    completedAt: Option<string>,
    isCompleted: bool,
    order: int)

  /** A milestone without id, completion time and completion flag, as
      templates and creation inputs carry them. */
  datatype MilestoneDraft = MilestoneDraft(
    title: string,
    description: Option<string>,
    targetDate: Option<string>,
    order: int)

  datatype Goal = Goal(
    id: string,
    kind: GoalType,
    title: string,
    description: Option<string>,
    status: GoalStatus,
    priority: GoalPriority,
    createdAt: string,
    updatedAt: string,
    startDate: Option<string>,
    targetDate: Option<string>,
    completedAt: Option<string>,
    progress: Progress,
    milestones: seq<Milestone>,
    relatedVideos: seq<string>,
    relatedNotes: seq<string>,
    tags: seq<string>,
    isPublic: bool)

  datatype Difficulty = Beginner | Intermediate | Advanced

  datatype Template = Template(
    id: string,
    kind: GoalType,
    title: string,
    description: string,
    suggestedMilestones: seq<MilestoneDraft>,
    estimatedDuration: Option<int>,
    difficulty: Difficulty,
    tags: seq<string>)

  /** The filter criteria; the free-text query is left out. */
  datatype GoalFilter = GoalFilter(
    types: Option<seq<GoalType>>,
    statuses: Option<seq<GoalStatus>>,
    priorities: Option<seq<GoalPriority>>,
    tags: Option<seq<string>>)

  datatype GoalState = GoalState(
    goals: seq<Goal>,
    templates: seq<Template>,
    filter: GoalFilter,
    selectedGoalId: Option<string>)

  function GoalIdIs(id: string): Goal -> bool {
    (g: Goal) => g.id == id
  }

  function MilestoneIdIs(id: string): Milestone -> bool {
    (m: Milestone) => m.id == id
  }

  /** The goal with `id` is rewritten by `f`; every other goal, the order and
      the rest of the state stay as they were. */
  predicate OnlyGoalRewritten(st: GoalState, r: GoalState, id: string, f: Goal -> Goal) {
    && |r.goals| == |st.goals|
    && (forall k :: 0 <= k < |st.goals| && st.goals[k].id != id ==> r.goals[k] == st.goals[k])
    && (forall k :: 0 <= k < |st.goals| && st.goals[k].id == id ==> r.goals[k] == f(st.goals[k]))
    && r.(goals := st.goals) == st
  }

  // ------------------------------------------------------------------ goals

  function AddGoal(st: GoalState, g: Goal): (r: GoalState)
    ensures r.goals == [g] + st.goals
    ensures r.(goals := st.goals) == st
  {
    st.(goals := [g] + st.goals)
  }

  /** An `UpdateGoalInput`: `None` leaves the field alone; an optional field
      can be set to a value or to `undefined`. Metrics are left out. */
  datatype GoalPatch = GoalPatch(
    title: Option<string>,
    description: Option<Option<string>>,
    status: Option<GoalStatus>,
    priority: Option<GoalPriority>,
    targetDate: Option<Option<string>>,
    progress: Option<Progress>,
    tags: Option<seq<string>>)

  /** `{ ...g, ...p, updatedAt: now }`. */
  function MergeGoal(g: Goal, p: GoalPatch, now: string): (r: Goal)
    ensures r.id == g.id && r.milestones == g.milestones && r.updatedAt == now
    ensures r.kind == g.kind && r.createdAt == g.createdAt && r.startDate == g.startDate
    ensures r.completedAt == g.completedAt && r.relatedVideos == g.relatedVideos
    ensures r.relatedNotes == g.relatedNotes && r.isPublic == g.isPublic
  {
    g.(title := p.title.GetOr(g.title),
       description := p.description.GetOr(g.description),
       status := p.status.GetOr(g.status),
       priority := p.priority.GetOr(g.priority),
       targetDate := p.targetDate.GetOr(g.targetDate),
       progress := p.progress.GetOr(g.progress),
       tags := p.tags.GetOr(g.tags),
       updatedAt := now)
  }

  const EmptyGoalPatch := GoalPatch(None, None, None, None, None, None, None)

  /** An update that names no field only restamps the goal. */
  lemma MergeGoalEmptyPatch(g: Goal, now: string)
    ensures MergeGoal(g, EmptyGoalPatch, now) == g.(updatedAt := now)
  {
  }

  function UpdateGoal(st: GoalState, id: string, p: GoalPatch, now: string): (r: GoalState)
    ensures OnlyGoalRewritten(st, r, id, (g: Goal) => MergeGoal(g, p, now))
    ensures forall k :: 0 <= k < |r.goals| ==> r.goals[k].id == st.goals[k].id
  {
    st.(goals := MapWhere(st.goals, GoalIdIs(id), (g: Goal) => MergeGoal(g, p, now)))
  }

  /** Removes every goal with the id and drops the selection if it was that
      goal. */
  function DeleteGoal(st: GoalState, id: string): (r: GoalState)
    ensures forall k :: 0 <= k < |r.goals| ==> r.goals[k].id != id && r.goals[k] in st.goals
    ensures forall k :: 0 <= k < |st.goals| && st.goals[k].id != id ==> st.goals[k] in r.goals
    ensures r.selectedGoalId == (if st.selectedGoalId == Some(id) then None else st.selectedGoalId)
    ensures r.templates == st.templates && r.filter == st.filter
  {
    st.(goals := Filter(st.goals, (g: Goal) => g.id != id),
        selectedGoalId := if st.selectedGoalId == Some(id) then None else st.selectedGoalId)
  }

  /** Deleting twice is deleting once, and the selection never points at the
      deleted id afterwards. */
  lemma DeleteGoalIdempotent(st: GoalState, id: string)
    ensures DeleteGoal(DeleteGoal(st, id), id) == DeleteGoal(st, id)
    ensures DeleteGoal(st, id).selectedGoalId != Some(id)
  {
    var r := DeleteGoal(st, id);
    FilterKeepsAll(r.goals, (g: Goal) => g.id != id);
  }

  /** `goals.find(g => g.id === id)`: the first goal with the id. */
  function GetGoalById(st: GoalState, id: string): (r: Option<Goal>)
    ensures r.None? <==> forall k :: 0 <= k < |st.goals| ==> st.goals[k].id != id
    ensures r.Some? ==>
      exists k :: 0 <= k < |st.goals| && st.goals[k] == r.value && r.value.id == id
        && forall j :: 0 <= j < k ==> st.goals[j].id != id
  {
    Find(st.goals, GoalIdIs(id))
  }

  /** A goal just added is the one found by its id; deleting it by id makes
      the lookup fail. */
  lemma AddedGoalIsFound(st: GoalState, g: Goal)
    ensures GetGoalById(AddGoal(st, g), g.id) == Some(g)
    ensures GetGoalById(DeleteGoal(AddGoal(st, g), g.id), g.id).None?
  {
  }

  /** Looking a goal up after updating it finds the old goal with the patch
      merged in, and nothing when there was none. */
  lemma UpdatedGoalIsFound(st: GoalState, id: string, p: GoalPatch, now: string)
    ensures GetGoalById(UpdateGoal(st, id, p, now), id)
         == if GetGoalById(st, id).Some? then Some(MergeGoal(GetGoalById(st, id).value, p, now)) else None
  {
    var r := UpdateGoal(st, id, p, now);
    FindIndexSameMatches(r.goals, st.goals, GoalIdIs(id), GoalIdIs(id));
  }

  function HasStatus(s: GoalStatus): Goal -> bool {
    (g: Goal) => g.status == s
  }

  function GetActiveGoals(st: GoalState): (r: seq<Goal>)
    ensures forall k :: 0 <= k < |r| ==> r[k].status == InProgress && r[k] in st.goals
    ensures forall k :: 0 <= k < |st.goals| && st.goals[k].status == InProgress ==> st.goals[k] in r
  {
    Filter(st.goals, HasStatus(InProgress))
  }

  function GetCompletedGoals(st: GoalState): (r: seq<Goal>)
    ensures forall k :: 0 <= k < |r| ==> r[k].status == Completed && r[k] in st.goals
    ensures forall k :: 0 <= k < |st.goals| && st.goals[k].status == Completed ==> st.goals[k] in r
  {
    Filter(st.goals, HasStatus(Completed))
  }

  /** No goal is both active and completed, so the two lists together hold
      no more goals than the store. */
  lemma {:induction false} ActiveAndCompletedPartition(goals: seq<Goal>)
    ensures |Filter(goals, HasStatus(InProgress))| + |Filter(goals, HasStatus(Completed))|
         == |Filter(goals, (g: Goal) => g.status == InProgress || g.status == Completed)|
    ensures |Filter(goals, HasStatus(InProgress))| + |Filter(goals, HasStatus(Completed))| <= |goals|
    decreases |goals|
  {
    if |goals| > 0 {
      ActiveAndCompletedPartition(goals[1..]);
    }
  }

  // ------------------------------------------------------------- milestones

  function AddMilestoneTo(g: Goal, m: Milestone): Goal {
    g.(milestones := g.milestones + [m])
  }

  /** Appends the milestone to the goals with the id. */
  function AddMilestone(st: GoalState, goalId: string, m: Milestone): (r: GoalState)
    ensures OnlyGoalRewritten(st, r, goalId, (g: Goal) => AddMilestoneTo(g, m))
  {
    st.(goals := MapWhere(st.goals, GoalIdIs(goalId), (g: Goal) => AddMilestoneTo(g, m)))
  }

  /** A `Partial<Milestone>`. */
  datatype MilestonePatch = MilestonePatch(
    id: Option<string>,
    title: Option<string>,
    description: Option<Option<string>>,
    targetDate: Option<Option<string>>,
    completedAt: Option<Option<string>>,
    isCompleted: Option<bool>,
    order: Option<int>)

  function MergeMilestone(m: Milestone, p: MilestonePatch): Milestone {
    Milestone(
      p.id.GetOr(m.id),
      p.title.GetOr(m.title),
      p.description.GetOr(m.description),
      p.targetDate.GetOr(m.targetDate),
      p.completedAt.GetOr(m.completedAt),
      p.isCompleted.GetOr(m.isCompleted),
      p.order.GetOr(m.order))
  }

  function UpdateMilestoneIn(g: Goal, milestoneId: string, p: MilestonePatch): (r: Goal)
    ensures |r.milestones| == |g.milestones|
    ensures forall k :: 0 <= k < |g.milestones| ==>
      r.milestones[k] == (if g.milestones[k].id == milestoneId then MergeMilestone(g.milestones[k], p) else g.milestones[k])
    ensures r.(milestones := g.milestones) == g
  {
    g.(milestones := MapWhere(g.milestones, MilestoneIdIs(milestoneId), (m: Milestone) => MergeMilestone(m, p)))
  }

  /** Merges the patch into the matching milestones of the matching goals. */
  const EmptyMilestonePatch := MilestonePatch(None, None, None, None, None, None, None)

  /** An update that names no field changes nothing, in any goal. */
  lemma UpdateMilestoneEmptyPatch(st: GoalState, goalId: string, milestoneId: string)
    ensures UpdateMilestone(st, goalId, milestoneId, EmptyMilestonePatch) == st
  {
    var r := UpdateMilestone(st, goalId, milestoneId, EmptyMilestonePatch);
    forall k | 0 <= k < |st.goals|
      ensures r.goals[k] == st.goals[k]
    {
      var g := st.goals[k];
      assert UpdateMilestoneIn(g, milestoneId, EmptyMilestonePatch).milestones == g.milestones;
    }
  }

  /** Updating a milestone just added to a goal whose milestone ids were
      fresh updates that milestone alone. */
  lemma UpdateAddedMilestone(g: Goal, m: Milestone, p: MilestonePatch)
    requires forall k :: 0 <= k < |g.milestones| ==> g.milestones[k].id != m.id
    ensures UpdateMilestoneIn(AddMilestoneTo(g, m), m.id, p) == AddMilestoneTo(g, MergeMilestone(m, p))
  {
    var r := UpdateMilestoneIn(AddMilestoneTo(g, m), m.id, p);
    assert r.milestones == g.milestones + [MergeMilestone(m, p)];
  }

  function UpdateMilestone(st: GoalState, goalId: string, milestoneId: string, p: MilestonePatch): (r: GoalState)
    ensures OnlyGoalRewritten(st, r, goalId, (g: Goal) => UpdateMilestoneIn(g, milestoneId, p))
  {
    st.(goals := MapWhere(st.goals, GoalIdIs(goalId), (g: Goal) => UpdateMilestoneIn(g, milestoneId, p)))
  }

  function DeleteMilestoneFrom(g: Goal, milestoneId: string): (r: Goal)
    ensures forall k :: 0 <= k < |r.milestones| ==> r.milestones[k].id != milestoneId && r.milestones[k] in g.milestones
    ensures forall k :: 0 <= k < |g.milestones| && g.milestones[k].id != milestoneId ==> g.milestones[k] in r.milestones
    ensures r.(milestones := g.milestones) == g
  {
    g.(milestones := Filter(g.milestones, (m: Milestone) => m.id != milestoneId))
  }

  /** Removes the milestones with the id from the goals with the id. */
  function DeleteMilestone(st: GoalState, goalId: string, milestoneId: string): (r: GoalState)
    ensures OnlyGoalRewritten(st, r, goalId, (g: Goal) => DeleteMilestoneFrom(g, milestoneId))
  {
    st.(goals := MapWhere(st.goals, GoalIdIs(goalId), (g: Goal) => DeleteMilestoneFrom(g, milestoneId)))
  }

  /** Deleting a milestone just added undoes the addition when its id was
      new to the goal. */
  lemma DeleteUndoesAddMilestone(g: Goal, m: Milestone)
    requires forall k :: 0 <= k < |g.milestones| ==> g.milestones[k].id != m.id
    ensures DeleteMilestoneFrom(AddMilestoneTo(g, m), m.id) == g
  {
    var keep := (x: Milestone) => x.id != m.id;
    FilterAppend(g.milestones, [m], keep);
    assert Filter([m], keep) == [];
    FilterKeepsAll(g.milestones, keep);
  }

  /** `Math.round(c / n * 100)` on exact rationals: the nearest integer to
      100c/n, halves rounded up. */
  function RoundPercent(c: nat, n: nat): (p: int)
    requires 0 < n
    ensures -(n as int) <= 200 * c - 2 * n * p < n
    ensures c <= n ==> 0 <= p <= 100
    ensures c == n ==> p == 100
    ensures c == 0 ==> p == 0
  {
    var p := (200 * c + n) / (2 * n);
    RoundPercentBounds(c, n, p);
    p
  }

  lemma MulMono(k: nat, x: int, y: int)
    requires x <= y
    ensures k * x <= k * y
  {
  }

  /** The facts about the rounded quotient, one nonlinear step at a time. */
  lemma RoundPercentBounds(c: nat, n: nat, p: int)
    requires 0 < n && p == (200 * c + n) / (2 * n)
    ensures -(n as int) <= 200 * c - 2 * n * p < n
    ensures c <= n ==> 0 <= p <= 100
    ensures c == n ==> p == 100
    ensures c == 0 ==> p == 0
  {
    var d := 2 * n;
    var a := 200 * c + n;
    assert d * p <= a < d * p + d;
    assert d * p == 2 * n * p;
    if p < 0 {
      MulMono(d, p, -1);
    }
    if c <= n && p > 100 {
      MulMono(d, 101, p);
    }
    if c == n && p < 100 {
      MulMono(d, p, 99);
    }
    if c == 0 && p > 0 {
      MulMono(d, 1, p);
    }
  }

  /** Rounding is monotone in the count. */
  lemma RoundPercentMonotone(c: nat, d: nat, n: nat)
    requires 0 < n && c <= d
    ensures RoundPercent(c, n) <= RoundPercent(d, n)
  {
    var p := RoundPercent(c, n);
    var q := RoundPercent(d, n);
    if q < p {
      MulMono(2 * n, q + 1, p);
    }
  }

  predicate IsDone(m: Milestone) {
    m.isCompleted
  }

  function UndoneWithId(id: string): Milestone -> bool {
    (m: Milestone) => m.id == id && !m.isCompleted
  }

  function MarkDone(ms: seq<Milestone>, id: string, now: string): (r: seq<Milestone>)
    ensures |r| == |ms|
    ensures forall k :: 0 <= k < |ms| ==>
      r[k] == (if ms[k].id == id then ms[k].(isCompleted := true, completedAt := Some(now)) else ms[k])
    decreases |ms|
  {
    if |ms| == 0 then []
    else [if ms[0].id == id then ms[0].(isCompleted := true, completedAt := Some(now)) else ms[0]]
         + MarkDone(ms[1..], id, now)
  }

  /** Completing milestone `id` adds exactly the not yet completed milestones
      with that id to the completed count. */
  lemma {:induction false} MarkDoneCount(ms: seq<Milestone>, id: string, now: string)
    ensures |Filter(MarkDone(ms, id, now), IsDone)| == |Filter(ms, IsDone)| + |Filter(ms, UndoneWithId(id))|
    decreases |ms|
  {
    if |ms| > 0 {
      var r := MarkDone(ms, id, now);
      assert r[1..] == MarkDone(ms[1..], id, now);
      FilterLength(r, IsDone);
      FilterLength(ms, IsDone);
      FilterLength(ms, UndoneWithId(id));
      MarkDoneCount(ms[1..], id, now);
    }
  }

  /** Marks the milestone complete and recomputes progress from the share
      of completed milestones. */
  function CompleteMilestoneIn(g: Goal, milestoneId: string, now: string): (r: Goal)
    ensures r.milestones == MarkDone(g.milestones, milestoneId, now)
    ensures r.(milestones := g.milestones, progress := g.progress) == g
  {
    var updated := MarkDone(g.milestones, milestoneId, now);
    var completedCount := |Filter(updated, IsDone)|;
    var progress := if |updated| == 0 then NaN else Percent(RoundPercent(completedCount, |updated|));
    g.(milestones := updated, progress := progress)
  }

  function CompleteMilestone(st: GoalState, goalId: string, milestoneId: string, now: string): (r: GoalState)
    ensures OnlyGoalRewritten(st, r, goalId, (g: Goal) => CompleteMilestoneIn(g, milestoneId, now))
  {
    st.(goals := MapWhere(st.goals, GoalIdIs(goalId), (g: Goal) => CompleteMilestoneIn(g, milestoneId, now)))
  }

  /** After completing a milestone, every milestone with that id is
      complete with completion time `now`. */
  lemma CompleteMilestoneMarks(g: Goal, milestoneId: string, now: string)
    ensures var r := CompleteMilestoneIn(g, milestoneId, now);
            forall k :: 0 <= k < |g.milestones| && g.milestones[k].id == milestoneId ==>
              r.milestones[k].isCompleted && r.milestones[k].completedAt == Some(now)
  {
  }

  /** A goal without milestones gets `NaN`; otherwise progress is the rounded
      share of milestones complete after the step, a percentage in
      [0, 100]. */
  lemma CompleteMilestoneProgress(g: Goal, milestoneId: string, now: string)
    ensures var r := CompleteMilestoneIn(g, milestoneId, now);
            |g.milestones| == 0 <==> r.progress == NaN
    ensures var r := CompleteMilestoneIn(g, milestoneId, now);
            var n := |g.milestones|;
            var c := |Filter(g.milestones, IsDone)| + |Filter(g.milestones, UndoneWithId(milestoneId))|;
            n > 0 ==> c <= n && r.progress == Percent(RoundPercent(c, n)) && 0 <= r.progress.value <= 100
  {
    var ms := MarkDone(g.milestones, milestoneId, now);
    var n := |g.milestones|;
    var c := |Filter(ms, IsDone)|;
    assert CompleteMilestoneIn(g, milestoneId, now).progress
        == if n == 0 then NaN else Percent(RoundPercent(c, n));
    MarkDoneCount(g.milestones, milestoneId, now);
  }

  /** Once every milestone is complete the progress is exactly 100. */
  lemma CompleteMilestoneAllDone(g: Goal, milestoneId: string, now: string)
    requires |g.milestones| > 0
    requires forall k :: 0 <= k < |g.milestones| ==>
      g.milestones[k].isCompleted || g.milestones[k].id == milestoneId
    ensures CompleteMilestoneIn(g, milestoneId, now).progress == Percent(100)
  {
    var ms := MarkDone(g.milestones, milestoneId, now);
    var n := |g.milestones|;
    FilterKeepsAll(ms, IsDone);
    assert CompleteMilestoneIn(g, milestoneId, now).progress == Percent(RoundPercent(n, n));
  }

  /** Completing a milestone never lowers the completed count, so progress
      never goes down from the last value computed the same way. */
  lemma CompleteMilestoneMonotone(g: Goal, milestoneId: string, now: string)
    requires |g.milestones| > 0
    ensures var r := CompleteMilestoneIn(g, milestoneId, now);
            r.progress.Percent? &&
            RoundPercent(|Filter(g.milestones, IsDone)|, |g.milestones|) <= r.progress.value
  {
    var ms := MarkDone(g.milestones, milestoneId, now);
    var n := |g.milestones|;
    assert CompleteMilestoneIn(g, milestoneId, now).progress == Percent(RoundPercent(|Filter(ms, IsDone)|, n));
    MarkDoneCount(g.milestones, milestoneId, now);
    RoundPercentMonotone(|Filter(g.milestones, IsDone)|,
      |Filter(g.milestones, IsDone)| + |Filter(g.milestones, UndoneWithId(milestoneId))|,
      |g.milestones|);
  }

  // -------------------------------------------------------------- templates

  datatype CreateGoalInput = CreateGoalInput(
    kind: GoalType,
    title: string,
    description: Option<string>,
    priority: GoalPriority,
    startDate: Option<string>,
    targetDate: Option<string>,
    milestones: Option<seq<MilestoneDraft>>,
    tags: Option<seq<string>>,
    relatedVideos: Option<seq<string>>,
    templateId: Option<string>)

  datatype CreateError = TemplateNotFound

  function TemplateIdIs(templateId: Option<string>): Template -> bool {
    (t: Template) => templateId == Some(t.id)
  }

  /** `milestone-${stamp}-${i}`. */
  function MilestoneStampId(stamp: string, i: nat): string {
    "milestone-" + stamp + "-" + NatToString(i)
  }

  /** `{ ...draft, id, isCompleted: false }`. */
  function FromDraft(d: MilestoneDraft, id: string): Milestone {
    Milestone(id, d.title, d.description, d.targetDate, None, false, d.order)
  }

  /** The milestones a list of drafts becomes: one per draft, in draft order,
      each open and carrying its draft's content, under pairwise distinct
      ids stamped with `stamp`. */
  function FromDrafts(ds: seq<MilestoneDraft>, stamp: string): (r: seq<Milestone>)
    ensures |r| == |ds|
    ensures forall i :: 0 <= i < |ds| ==>
      && !r[i].isCompleted && r[i].completedAt.None?
      && r[i].title == ds[i].title && r[i].description == ds[i].description
      && r[i].targetDate == ds[i].targetDate && r[i].order == ds[i].order
    ensures forall i :: 0 <= i < |ds| ==> "milestone-" + stamp + "-" <= r[i].id
    ensures forall i, j :: 0 <= i < j < |r| ==> r[i].id != r[j].id
  {
    StampIdsAllDistinct(stamp, |ds|);
    seq(|ds|, i requires 0 <= i < |ds| => FromDraft(ds[i], MilestoneStampId(stamp, i)))
  }

  /** The first `n` stamped ids are pairwise distinct. */
  lemma StampIdsAllDistinct(stamp: string, n: nat)
    ensures forall i, j :: 0 <= i < j < n ==> MilestoneStampId(stamp, i) != MilestoneStampId(stamp, j)
  {
    forall i, j | 0 <= i < j < n
      ensures MilestoneStampId(stamp, i) != MilestoneStampId(stamp, j)
    {
      StampIdsDistinct(stamp, i, j);
    }
  }

  /** Ids stamped with the same stamp and different positions differ. */
  lemma StampIdsDistinct(stamp: string, i: nat, j: nat)
    requires i != j
    ensures MilestoneStampId(stamp, i) != MilestoneStampId(stamp, j)
  {
    if MilestoneStampId(stamp, i) == MilestoneStampId(stamp, j) {
      var pre := "milestone-" + stamp + "-";
      assert MilestoneStampId(stamp, i)[|pre|..] == NatToString(i);
      assert MilestoneStampId(stamp, j)[|pre|..] == NatToString(j);
      NatToStringInjective(i, j);
    }
  }

  /** The goal built from a template: the input's milestones or else the
      template's, its tags or else the template's, no related videos unless
      given; not started, progress 0, private, no notes. */
  function GoalFromTemplate(input: CreateGoalInput, t: Template, goalId: string, stamp: string, now: string): Goal {
    Goal(
      goalId,
      input.kind,
      input.title,
      input.description,
      NotStarted,
      input.priority,
      now,
      now,
      input.startDate,
      input.targetDate,
      None,
      Percent(0),
      FromDrafts(input.milestones.GetOr(t.suggestedMilestones), stamp),
      input.relatedVideos.GetOr([]),
      [],
      input.tags.GetOr(t.tags),
      false)
  }

  /** Fails when no template has the requested id; otherwise prepends the new
      goal. `goalId` stands for `goal-${Date.now()}`. */
  function CreateGoalFromTemplate(st: GoalState, input: CreateGoalInput, goalId: string, stamp: string, now: string)
    : (r: Result<GoalState, CreateError>)
    ensures r.Failure? <==> forall k :: 0 <= k < |st.templates| ==> input.templateId != Some(st.templates[k].id)
    ensures r.Success? ==> |r.value.goals| == |st.goals| + 1 && r.value.goals[1..] == st.goals
    ensures r.Success? ==> r.value.(goals := st.goals) == st
  {
    var template := Find(st.templates, TemplateIdIs(input.templateId));
    if template.None? then Failure(TemplateNotFound)
    else Success(AddGoal(st, GoalFromTemplate(input, template.value, goalId, stamp, now)))
  }

  /** A goal created from a template starts not started at progress 0 with
      every milestone open, one milestone per draft in draft order, with
      pairwise distinct milestone ids. */
  lemma CreatedGoalShape(st: GoalState, input: CreateGoalInput, goalId: string, stamp: string, now: string)
    requires CreateGoalFromTemplate(st, input, goalId, stamp, now).Success?
    ensures var g := CreateGoalFromTemplate(st, input, goalId, stamp, now).value.goals[0];
            var k := FindIndex(st.templates, TemplateIdIs(input.templateId));
            var drafts := input.milestones.GetOr(st.templates[k].suggestedMilestones);
            && g.id == goalId && g.status == NotStarted && g.progress == Percent(0) && !g.isPublic
            && g.tags == input.tags.GetOr(st.templates[k].tags)
            && |g.milestones| == |drafts|
            && (forall i :: 0 <= i < |drafts| ==>
                  !g.milestones[i].isCompleted && g.milestones[i].completedAt.None?
                  && g.milestones[i].title == drafts[i].title && g.milestones[i].order == drafts[i].order)
            && (forall i, j :: 0 <= i < j < |g.milestones| ==> g.milestones[i].id != g.milestones[j].id)
  {
  }

  // ---------------------------------------------------------------- filters

  function InTypes(ts: seq<GoalType>): Goal -> bool {
    (g: Goal) => g.kind in ts
  }

  function InStatuses(ss: seq<GoalStatus>): Goal -> bool {
    (g: Goal) => g.status in ss
  }

  function InPriorities(ps: seq<GoalPriority>): Goal -> bool {
    (g: Goal) => g.priority in ps
  }

  /** `tags.some(tag => g.tags.includes(tag))`. */
  function SharesTag(tags: seq<string>): Goal -> bool {
    (g: Goal) => exists k :: 0 <= k < |tags| && tags[k] in g.tags
  }

  /** Narrowing by type, then by status. */
  function NarrowByKindAndStatus(goals: seq<Goal>, f: GoalFilter): (r: seq<Goal>)
    ensures multiset(r) <= multiset(goals)
  {
    var s1 := if f.types.Some? && |f.types.value| > 0 then Filter(goals, InTypes(f.types.value)) else goals;
    if f.statuses.Some? && |f.statuses.value| > 0 then Filter(s1, InStatuses(f.statuses.value)) else s1
  }

  /** Narrowing by priority, then by shared tag. */
  function NarrowByPriorityAndTags(s2: seq<Goal>, f: GoalFilter): (r: seq<Goal>)
    ensures multiset(r) <= multiset(s2)
  {
    var s3 := if f.priorities.Some? && |f.priorities.value| > 0 then Filter(s2, InPriorities(f.priorities.value)) else s2;
    if f.tags.Some? && |f.tags.value| > 0 then Filter(s3, SharesTag(f.tags.value)) else s3
  }

  /** The narrowing part of the filtered goal list: one filter per criterion
      that is present and non-empty. */
  function NarrowGoals(goals: seq<Goal>, f: GoalFilter): (r: seq<Goal>)
    ensures multiset(r) <= multiset(goals)
  {
    NarrowByPriorityAndTags(NarrowByKindAndStatus(goals, f), f)
  }

  /** A goal passes `f`: each non-empty list names its type, status and
      priority, and it shares a tag with a non-empty tag list. */
  predicate GoalMatches(f: GoalFilter, g: Goal) {
    && (f.types.Some? && |f.types.value| > 0 ==> g.kind in f.types.value)
    && (f.statuses.Some? && |f.statuses.value| > 0 ==> g.status in f.statuses.value)
    && (f.priorities.Some? && |f.priorities.value| > 0 ==> g.priority in f.priorities.value)
    && (f.tags.Some? && |f.tags.value| > 0 ==> exists k :: 0 <= k < |f.tags.value| && f.tags.value[k] in g.tags)
  }

  function KindAndStatusOk(f: GoalFilter): Goal -> bool {
    (g: Goal) => (f.types.Some? && |f.types.value| > 0 ==> g.kind in f.types.value)
              && (f.statuses.Some? && |f.statuses.value| > 0 ==> g.status in f.statuses.value)
  }

  function GoalMatchesFn(f: GoalFilter): Goal -> bool {
    (g: Goal) => GoalMatches(f, g)
  }

  /** The first two narrowings are one filter by type and status. */
  lemma NarrowByKindAndStatusIsFilter(goals: seq<Goal>, f: GoalFilter)
    ensures NarrowByKindAndStatus(goals, f) == Filter(goals, KindAndStatusOk(f))
  {
    var m0 := (g: Goal) => true;
    var a1 := f.types.Some? && |f.types.value| > 0;
    var a2 := f.statuses.Some? && |f.statuses.value| > 0;
    var m1 := (g: Goal) => a1 ==> g.kind in f.types.value;
    FilterKeepsAll(goals, m0);
    var s1 := if a1 then Filter(goals, InTypes(f.types.value)) else goals;
    FilterStep(goals, goals, s1, a1, m0, if a1 then InTypes(f.types.value) else m0, m1);
    var s2 := if a2 then Filter(s1, InStatuses(f.statuses.value)) else s1;
    FilterStep(goals, s1, s2, a2, m1, if a2 then InStatuses(f.statuses.value) else m0, KindAndStatusOk(f));
  }

  /** The chained narrowing is one filter by `GoalMatches`, in list order. */
  lemma NarrowGoalsIsMatches(goals: seq<Goal>, f: GoalFilter)
    ensures NarrowGoals(goals, f) == Filter(goals, GoalMatchesFn(f))
  {
    var m0 := (g: Goal) => true;
    var a3 := f.priorities.Some? && |f.priorities.value| > 0;
    var a4 := f.tags.Some? && |f.tags.value| > 0;
    var m3 := (g: Goal) => KindAndStatusOk(f)(g) && (a3 ==> g.priority in f.priorities.value);
    var s2 := NarrowByKindAndStatus(goals, f);
    NarrowByKindAndStatusIsFilter(goals, f);
    var s3 := if a3 then Filter(s2, InPriorities(f.priorities.value)) else s2;
    FilterStep(goals, s2, s3, a3, KindAndStatusOk(f), if a3 then InPriorities(f.priorities.value) else m0, m3);
    var s4 := if a4 then Filter(s3, SharesTag(f.tags.value)) else s3;
    FilterStep(goals, s3, s4, a4, m3, if a4 then SharesTag(f.tags.value) else m0, GoalMatchesFn(f));
  }
}
