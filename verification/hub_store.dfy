/** The personal hub store: dashboard widgets, habits with streaks, the
    activity timeline, and a second insight list whose counter follows its own
    rules: loading counts every insight that is not read, dismissed or not. */
module HubStore {
  import opened Wrappers
  import opened Seqs
  import opened InsightTypes

  datatype WidgetKind =
    | VideoConsumption | KnowledgeGrowth | GoalProgress | HabitTracker
    | EmotionCurve | TagCloud | QuickActions

  datatype Position = Position(x: int, y: int)

  datatype Size = Size(width: int, height: int)

  /** The free-form `config` record is kept as an opaque string map. */
  datatype Widget = Widget(
    id: string,
    kind: WidgetKind,
    title: string,
    position: Position,
    size: Size,
    isVisible: bool,
    config: Option<map<string, string>>)

  /** A `Partial<WidgetConfig>`: `None` leaves the field alone. */
  datatype WidgetPatch = WidgetPatch(
    id: Option<string>,
    kind: Option<WidgetKind>,
    title: Option<string>,
    position: Option<Position>,
    size: Option<Size>,
    isVisible: Option<bool>,
    config: Option<Option<map<string, string>>>)

  datatype Frequency = Daily | Weekly | Custom

  datatype Completion = Completion(date: string, completed: bool, note: Option<string>)

  datatype Habit = Habit(
    id: string,
    name: string,
    description: Option<string>,
    targetFrequency: Frequency,
    targetCount: Option<int>,
    currentStreak: int,
    longestStreak: int,
    completionHistory: seq<Completion>,
    relatedGoalId: Option<string>)

  /** A `Partial<HabitData>`. */
  datatype HabitPatch = HabitPatch(
    id: Option<string>,
    name: Option<string>,
    description: Option<Option<string>>,
    targetFrequency: Option<Frequency>,
    targetCount: Option<Option<int>>,
    currentStreak: Option<int>,
    longestStreak: Option<int>,
    completionHistory: Option<seq<Completion>>,
    relatedGoalId: Option<Option<string>>)

  datatype ActivityKind =
    | VideoWatched | NoteCreated | GoalCreated | GoalCompleted
    | MilestoneReached | HabitCompleted | TripCreated | ContentCreated

  /** A timeline entry; its metadata record is left out. */
  datatype Activity = Activity(id: string, kind: ActivityKind, title: string, description: Option<string>, timestamp: string)

  datatype HubState = HubState(
    widgets: seq<Widget>,
    lastUpdated: string,
    habits: seq<Habit>,
    timeline: seq<Activity>,
    insights: seq<Insight>,
    unreadInsightsCount: int)

  // ---------------------------------------------------------------- widgets

  function WidgetIdIs(id: string): Widget -> bool {
    (w: Widget) => w.id == id
  }

  /** `{ ...w, ...patch }`. */
  function MergeWidget(w: Widget, p: WidgetPatch): (r: Widget)
    ensures p.id.None? ==> r.id == w.id
    ensures p == WidgetPatch(None, None, None, None, None, None, None) ==> r == w
  {
    Widget(
      p.id.GetOr(w.id),
      p.kind.GetOr(w.kind),
      p.title.GetOr(w.title),
      p.position.GetOr(w.position),
      p.size.GetOr(w.size),
      p.isVisible.GetOr(w.isVisible),
      p.config.GetOr(w.config))
  }

  /** Merging the same patch again changes nothing more. */
  lemma MergeWidgetIdempotent(w: Widget, p: WidgetPatch)
    ensures MergeWidget(MergeWidget(w, p), p) == MergeWidget(w, p)
  {
  }

  /** Merges `patch` into every widget with the id; the other widgets, the
      length and the order stay as they were. */
  function UpdateWidgetConfig(st: HubState, id: string, patch: WidgetPatch): (r: HubState)
    ensures |r.widgets| == |st.widgets|
    ensures forall k :: 0 <= k < |st.widgets| && st.widgets[k].id != id ==> r.widgets[k] == st.widgets[k]
    ensures forall k :: 0 <= k < |st.widgets| && st.widgets[k].id == id ==>
      r.widgets[k] == MergeWidget(st.widgets[k], patch)
    ensures r.(widgets := st.widgets) == st
  {
    st.(widgets := MapWhere(st.widgets, WidgetIdIs(id), (w: Widget) => MergeWidget(w, patch)))
  }

  /** Applying the same update twice is applying it once, even when the patch
      renames the widgets it hits. */
  lemma UpdateWidgetConfigIdempotent(st: HubState, id: string, patch: WidgetPatch)
    ensures UpdateWidgetConfig(UpdateWidgetConfig(st, id, patch), id, patch) == UpdateWidgetConfig(st, id, patch)
  {
    var r1 := UpdateWidgetConfig(st, id, patch);
    var r2 := UpdateWidgetConfig(r1, id, patch);
    forall k | 0 <= k < |st.widgets| ensures r2.widgets[k] == r1.widgets[k] {
      if st.widgets[k].id == id {
        MergeWidgetIdempotent(st.widgets[k], patch);
      }
    }
  }

  function AddWidget(st: HubState, w: Widget): (r: HubState)
    ensures r.widgets == st.widgets + [w]
    ensures r.(widgets := st.widgets) == st
  {
    st.(widgets := st.widgets + [w])
  }

  /** Drops every widget with the id. */
  function RemoveWidget(st: HubState, id: string): (r: HubState)
    ensures forall k :: 0 <= k < |r.widgets| ==> r.widgets[k].id != id && r.widgets[k] in st.widgets
    ensures forall k :: 0 <= k < |st.widgets| && st.widgets[k].id != id ==> st.widgets[k] in r.widgets
    ensures r.(widgets := st.widgets) == st
  {
    st.(widgets := Filter(st.widgets, (w: Widget) => w.id != id))
  }

  /** Removing the id of a widget just added undoes the addition when no
      widget had that id before; in general it is the same as removing the id
      from the list before the addition. */
  lemma RemoveUndoesAdd(st: HubState, w: Widget)
    ensures RemoveWidget(AddWidget(st, w), w.id) == RemoveWidget(st, w.id)
    ensures (forall k :: 0 <= k < |st.widgets| ==> st.widgets[k].id != w.id) ==>
      RemoveWidget(AddWidget(st, w), w.id) == st
  {
    var keep := (x: Widget) => x.id != w.id;
    FilterAppend(st.widgets, [w], keep);
    assert Filter([w], keep) == [];
    if forall k :: 0 <= k < |st.widgets| ==> st.widgets[k].id != w.id {
      FilterKeepsAll(st.widgets, keep);
    }
  }

  // ----------------------------------------------------------------- habits

  function HabitIdIs(id: string): Habit -> bool {
    (h: Habit) => h.id == id
  }

  function AddHabit(st: HubState, h: Habit): (r: HubState)
    ensures r.habits == st.habits + [h]
    ensures r.(habits := st.habits) == st
  {
    st.(habits := st.habits + [h])
  }

  /** `{ ...h, ...patch }`. */
  function MergeHabit(h: Habit, p: HabitPatch): Habit {
    Habit(
      p.id.GetOr(h.id),
      p.name.GetOr(h.name),
      p.description.GetOr(h.description),
      p.targetFrequency.GetOr(h.targetFrequency),
      p.targetCount.GetOr(h.targetCount),
      p.currentStreak.GetOr(h.currentStreak),
      p.longestStreak.GetOr(h.longestStreak),
      p.completionHistory.GetOr(h.completionHistory),
      p.relatedGoalId.GetOr(h.relatedGoalId))
  }

  const EmptyHabitPatch := HabitPatch(None, None, None, None, None, None, None, None, None)

  /** Merges `patch` into the habits with the id; the other habits, the
      length and the order stay as they were. */
  function UpdateHabit(st: HubState, id: string, patch: HabitPatch): (r: HubState)
    ensures |r.habits| == |st.habits|
    ensures forall k :: 0 <= k < |st.habits| && st.habits[k].id != id ==> r.habits[k] == st.habits[k]
    ensures forall k :: 0 <= k < |st.habits| && st.habits[k].id == id ==>
      r.habits[k] == MergeHabit(st.habits[k], patch)
    ensures r.(habits := st.habits) == st
  {
    st.(habits := MapWhere(st.habits, HabitIdIs(id), (h: Habit) => MergeHabit(h, patch)))
  }

  /** An empty patch leaves every habit as it was. */
  lemma UpdateHabitEmptyPatch(st: HubState, id: string)
    ensures UpdateHabit(st, id, EmptyHabitPatch) == st
  {
    var r := UpdateHabit(st, id, EmptyHabitPatch);
    assert forall k :: 0 <= k < |st.habits| ==> r.habits[k] == st.habits[k];
  }

  /** A habit's best run is at least its current run. */
  predicate StreaksOk(h: Habit) {
    h.longestStreak >= h.currentStreak
  }

  /** One completion of a habit on `date`. */
  function Complete(h: Habit, date: string): (r: Habit)
    ensures r.completionHistory == h.completionHistory + [Completion(date, true, None)]
    ensures r.currentStreak == h.currentStreak + 1
    ensures r.longestStreak >= h.longestStreak && StreaksOk(r)
    ensures r.longestStreak == h.longestStreak || r.longestStreak == r.currentStreak
    ensures r.(completionHistory := h.completionHistory, currentStreak := h.currentStreak,
               longestStreak := h.longestStreak) == h
  {
    var completion := Completion(date, true, None);
    h.(completionHistory := h.completionHistory + [completion],
       currentStreak := h.currentStreak + 1,
       longestStreak := if h.longestStreak >= h.currentStreak + 1 then h.longestStreak else h.currentStreak + 1)
  }

  /** Completes every habit with the id; the others are untouched. */
  function CompleteHabit(st: HubState, id: string, date: string): (r: HubState)
    ensures |r.habits| == |st.habits|
    ensures forall k :: 0 <= k < |st.habits| && st.habits[k].id != id ==> r.habits[k] == st.habits[k]
    ensures forall k :: 0 <= k < |st.habits| && st.habits[k].id == id ==>
      r.habits[k] == Complete(st.habits[k], date)
    ensures r.(habits := st.habits) == st
  {
    st.(habits := MapWhere(st.habits, HabitIdIs(id), (h: Habit) => Complete(h, date)))
  }

  /** Completing a habit keeps every habit's best run at least its current
      run, and the completed ones satisfy it whatever they held before. */
  lemma CompleteHabitKeepsStreaks(st: HubState, id: string, date: string)
    requires forall k :: 0 <= k < |st.habits| ==> StreaksOk(st.habits[k])
    ensures forall k :: 0 <= k < |st.habits| ==> StreaksOk(CompleteHabit(st, id, date).habits[k])
  {
  }

  /** Completing a habit just added under a fresh id completes that habit
      alone. */
  lemma CompleteAddedHabit(st: HubState, h: Habit, date: string)
    requires forall k :: 0 <= k < |st.habits| ==> st.habits[k].id != h.id
    ensures CompleteHabit(AddHabit(st, h), h.id, date) == AddHabit(st, Complete(h, date))
  {
    var r := CompleteHabit(AddHabit(st, h), h.id, date);
    assert r.habits == st.habits + [Complete(h, date)];
  }

  /** `n` completions in a row on one habit raise its current run by `n` and
      its history by `n` entries. */
  function CompleteTimes(h: Habit, date: string, n: nat): (r: Habit)
    ensures r.currentStreak == h.currentStreak + n
    ensures |r.completionHistory| == |h.completionHistory| + n
    ensures n > 0 ==> StreaksOk(r)
    ensures StreaksOk(h) ==> StreaksOk(r)
    decreases n
  {
    if n == 0 then h else Complete(CompleteTimes(h, date, n - 1), date)
  }

  /** After `n` completions the best run is the larger of the old best run
      and the new current run. */
  lemma {:induction false} CompleteTimesLongest(h: Habit, date: string, n: nat)
    requires n > 0
    ensures CompleteTimes(h, date, n).longestStreak
         == (if h.longestStreak >= h.currentStreak + n then h.longestStreak else h.currentStreak + n)
    decreases n
  {
    if n > 1 {
      CompleteTimesLongest(h, date, n - 1);
    }
  }

  // --------------------------------------------------------------- timeline

  /** Newest first: the activity goes in front of the existing ones. */
  function AddTimelineActivity(st: HubState, a: Activity): (r: HubState)
    ensures |r.timeline| == |st.timeline| + 1 && r.timeline[0] == a && r.timeline[1..] == st.timeline
    ensures r.(timeline := st.timeline) == st
  {
    st.(timeline := [a] + st.timeline)
  }

  /** Adds the activities one after another. */
  function AddTimelineActivities(st: HubState, acts: seq<Activity>): (r: HubState)
    ensures r.(timeline := st.timeline) == st
    decreases |acts|
  {
    if |acts| == 0 then st
    else AddTimelineActivities(AddTimelineActivity(st, acts[0]), acts[1..])
  }

  /** Adding activities one by one leaves them newest first, ahead of the
      earlier timeline: the last added leads. */
  lemma {:induction false} AddTimelineActivitiesNewestFirst(st: HubState, acts: seq<Activity>)
    ensures var r := AddTimelineActivities(st, acts).timeline;
      && |r| == |acts| + |st.timeline|
      && (forall i :: 0 <= i < |acts| ==> r[i] == acts[|acts| - 1 - i])
      && r[|acts|..] == st.timeline
    decreases |acts|
  {
    if |acts| > 0 {
      var st1 := AddTimelineActivity(st, acts[0]);
      AddTimelineActivitiesNewestFirst(st1, acts[1..]);
      var r := AddTimelineActivities(st, acts).timeline;
      assert r == AddTimelineActivities(st1, acts[1..]).timeline;
      assert r[|acts| - 1..] == st1.timeline;
      forall i | 0 <= i < |acts|
        ensures r[i] == acts[|acts| - 1 - i]
      {
        if i < |acts| - 1 {
          assert r[i] == acts[1..][|acts| - 2 - i];
        } else {
          assert r[i] == r[|acts| - 1..][0];
        }
      }
      assert r[|acts|..] == r[|acts| - 1..][1..];
    }
  }

  // --------------------------------------------------------------- insights

  /** The hub counter agrees with the number of insights not read. */
  predicate HubConsistent(st: HubState) {
    st.unreadInsightsCount == |Filter(st.insights, IsNotRead)|
  }

  function SetInsights(st: HubState, insights: seq<Insight>): (r: HubState)
    ensures r.insights == insights && HubConsistent(r)
    ensures r.(insights := st.insights, unreadInsightsCount := st.unreadInsightsCount) == st
  {
    st.(insights := insights, unreadInsightsCount := |Filter(insights, IsNotRead)|)
  }

  /** Prepends an insight, counting it when it is not read. Whatever the
      state, the counter's distance from the true count is kept. */
  function AddInsight(st: HubState, x: Insight): (r: HubState)
    ensures r.insights == [x] + st.insights
    ensures r.(insights := st.insights, unreadInsightsCount := st.unreadInsightsCount) == st
    ensures r.unreadInsightsCount == st.unreadInsightsCount + (if !x.isRead then 1 else 0)
    ensures r.unreadInsightsCount - |Filter(r.insights, IsNotRead)|
         == st.unreadInsightsCount - |Filter(st.insights, IsNotRead)|
  {
    assert ([x] + st.insights)[1..] == st.insights;
    st.(insights := [x] + st.insights,
        unreadInsightsCount := if !x.isRead then st.unreadInsightsCount + 1 else st.unreadInsightsCount)
  }

  /** Adding keeps the hub counter consistent. */
  lemma AddInsightKeepsHubConsistent(st: HubState, x: Insight)
    requires HubConsistent(st)
    ensures HubConsistent(AddInsight(st, x))
  {
    assert ([x] + st.insights)[1..] == st.insights;
  }

  /** No-op on a missing or already-read target; otherwise marks every
      insight with the id read and decrements. */
  function MarkInsightAsRead(st: HubState, id: string): (r: HubState)
    ensures |r.insights| == |st.insights|
    ensures forall k :: 0 <= k < |st.insights| ==> r.insights[k].id == st.insights[k].id
    ensures r.(insights := st.insights, unreadInsightsCount := st.unreadInsightsCount) == st
  {
    var found := Find(st.insights, IdIs(id));
    if found.None? || found.value.isRead then st
    else st.(insights := MarkRead(st.insights, id), unreadInsightsCount := st.unreadInsightsCount - 1)
  }

  /** Where `MarkInsightAsRead` acts: on a present, unread target it marks
      the insights with the id read and counts one down; otherwise nothing
      changes. */
  lemma MarkInsightAsReadCases(st: HubState, id: string)
    ensures var k := FindIndex(st.insights, IdIs(id));
      MarkInsightAsRead(st, id)
        == if 0 <= k && !st.insights[k].isRead
           then st.(insights := MarkRead(st.insights, id), unreadInsightsCount := st.unreadInsightsCount - 1)
           else st
  {
    var k := FindIndex(st.insights, IdIs(id));
    if k < 0 {
      assert Find(st.insights, IdIs(id)) == None;
    } else {
      assert Find(st.insights, IdIs(id)) == Some(st.insights[k]);
    }
  }

  /** With unique ids, marking read keeps the hub counter consistent and
      leaves the target read. */
  lemma MarkInsightAsReadKeepsHubConsistent(st: HubState, id: string)
    requires HubConsistent(st) && UniqueIds(st.insights)
    ensures HubConsistent(MarkInsightAsRead(st, id))
    ensures var k := FindIndex(st.insights, IdIs(id));
            0 <= k ==> MarkInsightAsRead(st, id).insights[k].isRead
  {
    var s := st.insights;
    var k := FindIndex(s, IdIs(id));
    MarkInsightAsReadCases(st, id);
    if 0 <= k && !s[k].isRead {
      MarkReadNotRead(s, id);
      UniqueIdCount(s, id, IsNotRead, NotReadWithId(id));
    }
  }

  /** No-op on a missing target; otherwise marks every insight with the id
      dismissed, decrementing only when the target was neither read nor
      dismissed. */
  function DismissInsight(st: HubState, id: string): (r: HubState)
    ensures |r.insights| == |st.insights|
    ensures forall k :: 0 <= k < |st.insights| ==> r.insights[k].id == st.insights[k].id
    ensures r.(insights := st.insights, unreadInsightsCount := st.unreadInsightsCount) == st
  {
    var found := Find(st.insights, IdIs(id));
    if found.None? then st
    else st.(insights := MarkDismissed(st.insights, id),
             unreadInsightsCount := if !found.value.isRead && !found.value.isDismissed
                                    then st.unreadInsightsCount - 1 else st.unreadInsightsCount)
  }

  /** The outcomes of `dismissInsight`: a missing id changes nothing;
      otherwise every insight with the id becomes dismissed, and the counter
      drops by one exactly when the first of them was neither read nor
      dismissed. */
  lemma DismissInsightCases(st: HubState, id: string)
    ensures var k := FindIndex(st.insights, IdIs(id));
      k < 0 ==> DismissInsight(st, id) == st
    ensures var k := FindIndex(st.insights, IdIs(id));
      var r := DismissInsight(st, id);
      0 <= k ==>
        && r.insights == MarkDismissed(st.insights, id)
        && r.unreadInsightsCount
           == st.unreadInsightsCount - (if !st.insights[k].isRead && !st.insights[k].isDismissed then 1 else 0)
  {
    var k := FindIndex(st.insights, IdIs(id));
    assert Find(st.insights, IdIs(id)) == if k < 0 then None else Some(st.insights[k]);
  }

  /** Dismissing twice is dismissing once: the second call finds the target
      already dismissed and leaves the counter alone. */
  lemma DismissInsightIdempotent(st: HubState, id: string)
    ensures DismissInsight(DismissInsight(st, id), id) == DismissInsight(st, id)
  {
    var s := st.insights;
    var k := FindIndex(s, IdIs(id));
    assert Find(s, IdIs(id)) == if k < 0 then None else Some(s[k]);
    if 0 <= k {
      var t := MarkDismissed(s, id);
      assert DismissInsight(st, id).insights == t;
      SameIdsSameIndex(s, t, id);
      assert Find(t, IdIs(id)) == Some(t[k]);
      MarkDismissedIdempotent(s, id);
    }
  }

  /** Dismissing changes nothing the hub counter counts, so the counter stays
      consistent exactly when the target is missing or does not count as
      unread in the insights store's sense; otherwise it drops one below the
      number of insights not read. */
  lemma DismissInsightHubConsistency(st: HubState, id: string)
    requires HubConsistent(st)
    ensures var found := Find(st.insights, IdIs(id));
            HubConsistent(DismissInsight(st, id)) <==> !(found.Some? && IsUnread(found.value))
  {
    var s := st.insights;
    var k := FindIndex(s, IdIs(id));
    assert Find(s, IdIs(id)) == if k < 0 then None else Some(s[k]);
    if 0 <= k {
      assert DismissInsight(st, id).insights == MarkDismissed(s, id);
      MarkDismissedNotRead(s, id);
    }
  }

  lemma {:induction false} MarkDismissedNotRead(s: seq<Insight>, id: string)
    ensures Filter(MarkDismissed(s, id), IsNotRead) == MarkDismissed(Filter(s, IsNotRead), id)
    decreases |s|
  {
    if |s| > 0 {
      var r := MarkDismissed(s, id);
      assert r[1..] == MarkDismissed(s[1..], id);
      MarkDismissedNotRead(s[1..], id);
      if IsNotRead(s[0]) {
        var rest := Filter(s[1..], IsNotRead);
        assert Filter(s, IsNotRead) == [s[0]] + rest;
        assert ([s[0]] + rest)[1..] == rest;
      }
    }
  }

  predicate DismissedUnread(i: Insight) {
    !i.isRead && i.isDismissed
  }

  /** Loading the same list, the hub counts more than the insights store by
      exactly the dismissed insights that are still unread. */
  lemma {:induction false} LoadedCountsDiverge(xs: seq<Insight>)
    ensures |Filter(xs, IsNotRead)| == |Filter(xs, IsUnread)| + |Filter(xs, DismissedUnread)|
    decreases |xs|
  {
    if |xs| > 0 {
      LoadedCountsDiverge(xs[1..]);
    }
  }
}
