/** The insights store: the insight list, its unread counter and the list
    view filter. The counter is kept by hand alongside the list, so the
    central question is whether each action keeps it equal to the number of
    insights that are neither read nor dismissed. */
module InsightsStore {
  import opened Wrappers
  import opened Seqs
  import opened InsightTypes

  datatype InsightsState = InsightsState(insights: seq<Insight>, unreadCount: int, filter: InsightFilter)

  /** The view shows everything that is not dismissed. */
  const DefaultFilter := InsightFilter(None, None, None, None, Some(false))

  const Initial := InsightsState([], 0, DefaultFilter)

  /** The counter agrees with the list. */
  predicate Consistent(st: InsightsState) {
    st.unreadCount == |Filter(st.insights, IsUnread)|
  }

  /** Replaces the list and recounts. */
  function SetInsights(st: InsightsState, insights: seq<Insight>): (r: InsightsState)
    ensures r.insights == insights && r.filter == st.filter
    ensures Consistent(r)
  {
    st.(insights := insights, unreadCount := |Filter(insights, IsUnread)|)
  }

  /** Prepends an insight, counting it when it is unread. Whatever the state,
      the counter moves by one exactly for an unread insight, so its distance
      from the true count is kept. */
  function AddInsight(st: InsightsState, x: Insight): (r: InsightsState)
    ensures r.insights == [x] + st.insights && r.filter == st.filter
    ensures r.unreadCount == st.unreadCount + (if IsUnread(x) then 1 else 0)
    ensures r.unreadCount - |Filter(r.insights, IsUnread)| == st.unreadCount - |Filter(st.insights, IsUnread)|
  {
    assert ([x] + st.insights)[1..] == st.insights;
    st.(insights := [x] + st.insights,
        unreadCount := if IsUnread(x) then st.unreadCount + 1 else st.unreadCount)
  }

  /** Adding keeps the counter consistent. */
  lemma AddInsightKeepsConsistent(st: InsightsState, x: Insight)
    requires Consistent(st)
    ensures Consistent(AddInsight(st, x))
  {
    assert ([x] + st.insights)[1..] == st.insights;
  }

  /** Marks the first insight with the id read, unless there is none or it is
      already read, and then decrements the counter unconditionally. */
  function MarkAsRead(st: InsightsState, id: string): (r: InsightsState)
    ensures r.filter == st.filter
    ensures |r.insights| == |st.insights|
    ensures forall k :: 0 <= k < |st.insights| ==> r.insights[k].id == st.insights[k].id
  {
    var found := Find(st.insights, IdIs(id));
    if found.None? || found.value.isRead then st
    else st.(insights := MarkRead(st.insights, id), unreadCount := st.unreadCount - 1)
  }

  /** The outcomes of `markAsRead`, by the first insight with the id: when
      there is none, or it is already read, nothing changes; otherwise every
      insight with the id becomes read, every other insight is kept, and the
      counter drops by exactly one. */
  lemma MarkAsReadCases(st: InsightsState, id: string)
    ensures var k := FindIndex(st.insights, IdIs(id));
      !(0 <= k && !st.insights[k].isRead) ==> MarkAsRead(st, id) == st
    ensures var k := FindIndex(st.insights, IdIs(id));
      var r := MarkAsRead(st, id);
      0 <= k && !st.insights[k].isRead ==>
        r.unreadCount == st.unreadCount - 1 && r.insights[k].isRead &&
        forall j :: 0 <= j < |st.insights| ==>
          r.insights[j] == (if st.insights[j].id == id then st.insights[j].(isRead := true) else st.insights[j])
  {
    var k := FindIndex(st.insights, IdIs(id));
    if k < 0 {
      assert Find(st.insights, IdIs(id)) == None;
    } else {
      assert Find(st.insights, IdIs(id)) == Some(st.insights[k]);
    }
  }

  /** The insight `markAsRead` acts on is dismissed but still unread. */
  predicate TargetDismissedUnread(st: InsightsState, id: string) {
    var found := Find(st.insights, IdIs(id));
    found.Some? && !found.value.isRead && found.value.isDismissed
  }

  /** With unique ids, `markAsRead` keeps the counter consistent exactly when
      its target is not a dismissed-but-unread insight; on such a target the
      counter ends one below the true count. */
  lemma MarkAsReadConsistency(st: InsightsState, id: string)
    requires Consistent(st) && UniqueIds(st.insights)
    ensures Consistent(MarkAsRead(st, id)) <==> !TargetDismissedUnread(st, id)
    ensures TargetDismissedUnread(st, id) ==>
      MarkAsRead(st, id).unreadCount == |Filter(MarkAsRead(st, id).insights, IsUnread)| - 1
  {
    var s := st.insights;
    var k := FindIndex(s, IdIs(id));
    if 0 <= k && !s[k].isRead {
      MarkReadUnread(s, id);
      UniqueIdCount(s, id, IsUnread, UnreadWithId(id));
    }
  }

  /** One concrete run: load a single dismissed, unread insight, then mark it
      read. The counter starts at 0 and ends at -1. */
  lemma MarkAsReadDismissedGoesNegative()
    ensures var x := Insight("i1", Warning, "t", "d", Manual, Low, "now", false, true);
            var st := SetInsights(Initial, [x]);
            st.unreadCount == 0 && MarkAsRead(st, "i1").unreadCount == -1
  {
    var x := Insight("i1", Warning, "t", "d", Manual, Low, "now", false, true);
    assert Filter([x], IsUnread) == [];
  }

  /** `markAsRead` decrementing only when the target actually counted as
      unread. */
  function MarkAsReadFixed(st: InsightsState, id: string): (r: InsightsState)
    ensures r.filter == st.filter
    ensures |r.insights| == |st.insights|
  {
    var found := Find(st.insights, IdIs(id));
    if found.None? || found.value.isRead then st
    else st.(insights := MarkRead(st.insights, id),
             unreadCount := if IsUnread(found.value) then st.unreadCount - 1 else st.unreadCount)
  }

  /** With unique ids, the corrected `markAsRead` always keeps the counter
      consistent, and it sets the read flag of the target. */
  lemma MarkAsReadFixedKeepsConsistent(st: InsightsState, id: string)
    requires Consistent(st) && UniqueIds(st.insights)
    ensures Consistent(MarkAsReadFixed(st, id))
    ensures var k := FindIndex(st.insights, IdIs(id));
            0 <= k ==> MarkAsReadFixed(st, id).insights[k].isRead
  {
    var s := st.insights;
    var k := FindIndex(s, IdIs(id));
    assert Find(s, IdIs(id)) == if k < 0 then None else Some(s[k]);
    if 0 <= k && !s[k].isRead {
      assert MarkAsReadFixed(st, id).insights == MarkRead(s, id);
      MarkReadUnread(s, id);
      UniqueIdCount(s, id, IsUnread, UnreadWithId(id));
    }
  }

  /** Marking the same insight read twice is marking it once. */
  lemma MarkAsReadIdempotent(st: InsightsState, id: string)
    ensures MarkAsRead(MarkAsRead(st, id), id) == MarkAsRead(st, id)
  {
    var r := MarkAsRead(st, id);
    SameIdsSameIndex(st.insights, r.insights, id);
  }

  /** Dismisses the first insight with the id, unless there is none or it is
      already dismissed; decrements the counter when it was unread. */
  function Dismiss(st: InsightsState, id: string): (r: InsightsState)
    ensures r.filter == st.filter
    ensures |r.insights| == |st.insights|
    ensures forall k :: 0 <= k < |st.insights| ==> r.insights[k].id == st.insights[k].id
  {
    var found := Find(st.insights, IdIs(id));
    if found.None? || found.value.isDismissed then st
    else
      var shouldDecrementUnread := !found.value.isRead && !found.value.isDismissed;
      st.(insights := MarkDismissed(st.insights, id),
          unreadCount := if shouldDecrementUnread then st.unreadCount - 1 else st.unreadCount)
  }

  /** The outcomes of `dismiss`, by the first insight with the id: when there
      is none, or it is already dismissed, nothing changes; otherwise every
      insight with the id becomes dismissed and the counter drops by one
      exactly when that first insight was unread. */
  lemma DismissCases(st: InsightsState, id: string)
    ensures var k := FindIndex(st.insights, IdIs(id));
      !(0 <= k && !st.insights[k].isDismissed) ==> Dismiss(st, id) == st
    ensures var k := FindIndex(st.insights, IdIs(id));
      var r := Dismiss(st, id);
      0 <= k && !st.insights[k].isDismissed ==>
        && r.insights == MarkDismissed(st.insights, id)
        && r.unreadCount == st.unreadCount - (if IsUnread(st.insights[k]) then 1 else 0)
  {
    var k := FindIndex(st.insights, IdIs(id));
    assert Find(st.insights, IdIs(id)) == if k < 0 then None else Some(st.insights[k]);
  }

  /** With unique ids, dismissing keeps the counter consistent and leaves the
      target dismissed. */
  lemma DismissKeepsConsistent(st: InsightsState, id: string)
    requires Consistent(st) && UniqueIds(st.insights)
    ensures Consistent(Dismiss(st, id))
    ensures var k := FindIndex(st.insights, IdIs(id));
            0 <= k ==> Dismiss(st, id).insights[k].isDismissed
  {
    var s := st.insights;
    var k := FindIndex(s, IdIs(id));
    assert Find(s, IdIs(id)) == if k < 0 then None else Some(s[k]);
    if 0 <= k && !s[k].isDismissed {
      assert Dismiss(st, id).insights == MarkDismissed(s, id);
      MarkDismissedUnread(s, id);
      UniqueIdCount(s, id, IsUnread, UnreadWithId(id));
    }
  }

  /** Dismissing the same insight twice is dismissing it once. */
  lemma DismissIdempotent(st: InsightsState, id: string)
    ensures Dismiss(Dismiss(st, id), id) == Dismiss(st, id)
  {
    var r := Dismiss(st, id);
    SameIdsSameIndex(st.insights, r.insights, id);
  }

  function Listed(ids: seq<string>): Insight -> bool {
    (i: Insight) => i.id in ids
  }

  /** `s.map(i => ids.includes(i.id) ? { ...i, isDismissed: true } : i)`. */
  function MarkListedDismissed(s: seq<Insight>, ids: seq<string>): (r: seq<Insight>)
    ensures |r| == |s|
    ensures forall k :: 0 <= k < |s| ==>
      r[k] == (if s[k].id in ids then s[k].(isDismissed := true) else s[k])
    decreases |s|
  {
    if |s| == 0 then []
    else [if s[0].id in ids then s[0].(isDismissed := true) else s[0]] + MarkListedDismissed(s[1..], ids)
  }

  function ListedUnread(ids: seq<string>): Insight -> bool {
    (i: Insight) => i.id in ids && IsUnread(i)
  }

  /** Dismissing the listed insights removes exactly the listed unread ones
      from the unread count. */
  lemma {:induction false} MarkListedUnreadCount(s: seq<Insight>, ids: seq<string>)
    ensures |Filter(MarkListedDismissed(s, ids), IsUnread)| + |Filter(s, ListedUnread(ids))| == |Filter(s, IsUnread)|
    decreases |s|
  {
    if |s| > 0 {
      var r := MarkListedDismissed(s, ids);
      assert r[1..] == MarkListedDismissed(s[1..], ids);
      FilterLength(r, IsUnread);
      FilterLength(s, IsUnread);
      FilterLength(s, ListedUnread(ids));
      MarkListedUnreadCount(s[1..], ids);
    }
  }

  /** Dismisses every listed insight and subtracts those that were unread. */
  function BatchDismiss(st: InsightsState, ids: seq<string>): (r: InsightsState)
    ensures r.filter == st.filter
    ensures |r.insights| == |st.insights|
  {
    var dismissedInsights := Filter(st.insights, Listed(ids));
    var unreadDismissedCount := |Filter(dismissedInsights, IsUnread)|;
    st.(insights := MarkListedDismissed(st.insights, ids),
        unreadCount := st.unreadCount - unreadDismissedCount)
  }

  lemma MarkListedUnread(s: seq<Insight>, ids: seq<string>)
    ensures |Filter(MarkListedDismissed(s, ids), IsUnread)| + |Filter(Filter(s, Listed(ids)), IsUnread)|
         == |Filter(s, IsUnread)|
  {
    FilterFilter(s, Listed(ids), IsUnread, ListedUnread(ids));
    MarkListedUnreadCount(s, ids);
  }

  /** A batch dismissal keeps the counter consistent, even with repeated ids,
      and leaves no listed insight unread. */
  lemma BatchDismissKeepsConsistent(st: InsightsState, ids: seq<string>)
    requires Consistent(st)
    ensures Consistent(BatchDismiss(st, ids))
    ensures forall k :: 0 <= k < |st.insights| && st.insights[k].id in ids ==>
      BatchDismiss(st, ids).insights[k].isDismissed
  {
    MarkListedUnread(st.insights, ids);
  }

  /** A `Partial<InsightFilter>`: an outer `None` is a key the patch does not
      carry, `Some(None)` a key explicitly set to `undefined`. */
  datatype FilterPatch = FilterPatch(
    categories: Option<Option<seq<InsightCategory>>>,
    priorities: Option<Option<seq<InsightPriority>>>,
    sources: Option<Option<seq<InsightSource>>>,
    isRead: Option<Option<bool>>,
    isDismissed: Option<Option<bool>>)

  const EmptyPatch := FilterPatch(None, None, None, None, None)

  /** `{ ...f, ...p }`. */
  function MergeFilter(f: InsightFilter, p: FilterPatch): (r: InsightFilter)
    ensures p.categories.Some? ==> r.categories == p.categories.value
    ensures p.categories.None? ==> r.categories == f.categories
    ensures p.priorities.Some? ==> r.priorities == p.priorities.value
    ensures p.priorities.None? ==> r.priorities == f.priorities
    ensures p.sources.Some? ==> r.sources == p.sources.value
    ensures p.sources.None? ==> r.sources == f.sources
    ensures p.isRead.Some? ==> r.isRead == p.isRead.value
    ensures p.isRead.None? ==> r.isRead == f.isRead
    ensures p.isDismissed.Some? ==> r.isDismissed == p.isDismissed.value
    ensures p.isDismissed.None? ==> r.isDismissed == f.isDismissed
  {
    InsightFilter(
      p.categories.GetOr(f.categories),
      p.priorities.GetOr(f.priorities),
      p.sources.GetOr(f.sources),
      p.isRead.GetOr(f.isRead),
      p.isDismissed.GetOr(f.isDismissed))
  }

  function SetFilter(st: InsightsState, p: FilterPatch): (r: InsightsState)
    ensures r.insights == st.insights && r.unreadCount == st.unreadCount
  {
    st.(filter := MergeFilter(st.filter, p))
  }

  function ClearFilter(st: InsightsState): (r: InsightsState)
    ensures r.insights == st.insights && r.unreadCount == st.unreadCount
  {
    st.(filter := DefaultFilter)
  }

  /** An empty patch changes nothing, and applying a patch twice is applying
      it once. */
  lemma SetFilterLaws(st: InsightsState, p: FilterPatch)
    ensures SetFilter(st, EmptyPatch) == st
    ensures SetFilter(SetFilter(st, p), p) == SetFilter(st, p)
  {
  }

  function InCategories(cats: seq<InsightCategory>): Insight -> bool {
    (i: Insight) => i.category in cats
  }

  function InPriorities(ps: seq<InsightPriority>): Insight -> bool {
    (i: Insight) => i.priority in ps
  }

  function InSources(ss: seq<InsightSource>): Insight -> bool {
    (i: Insight) => i.source in ss
  }

  function ReadIs(b: bool): Insight -> bool {
    (i: Insight) => i.isRead == b
  }

  function DismissedIs(b: bool): Insight -> bool {
    (i: Insight) => i.isDismissed == b
  }

  /** The narrowing by the three criterion lists; a list that is absent or
      empty does not narrow. */
  function NarrowByLists(f: InsightFilter, s0: seq<Insight>): (r: seq<Insight>)
    ensures multiset(r) <= multiset(s0)
  {
    var s1 := if f.categories.Some? && |f.categories.value| > 0 then Filter(s0, InCategories(f.categories.value)) else s0;
    var s2 := if f.priorities.Some? && |f.priorities.value| > 0 then Filter(s1, InPriorities(f.priorities.value)) else s1;
    if f.sources.Some? && |f.sources.value| > 0 then Filter(s2, InSources(f.sources.value)) else s2
  }

  /** The narrowing by the read and dismissed flags, when set. */
  function NarrowByFlags(f: InsightFilter, s3: seq<Insight>): (r: seq<Insight>)
    ensures multiset(r) <= multiset(s3)
  {
    var s4 := if f.isRead.Some? then Filter(s3, ReadIs(f.isRead.value)) else s3;
    if f.isDismissed.Some? then Filter(s4, DismissedIs(f.isDismissed.value)) else s4
  }

  /** The list view, narrowed one criterion after the other. */
  function GetFilteredInsights(st: InsightsState): (r: seq<Insight>)
    ensures multiset(r) <= multiset(st.insights)
  {
    NarrowByFlags(st.filter, NarrowByLists(st.filter, st.insights))
  }

  predicate CategoryOk(f: InsightFilter, i: Insight) {
    f.categories.Some? && |f.categories.value| > 0 ==> i.category in f.categories.value
  }

  predicate PriorityOk(f: InsightFilter, i: Insight) {
    f.priorities.Some? && |f.priorities.value| > 0 ==> i.priority in f.priorities.value
  }

  predicate SourceOk(f: InsightFilter, i: Insight) {
    f.sources.Some? && |f.sources.value| > 0 ==> i.source in f.sources.value
  }

  predicate ReadOk(f: InsightFilter, i: Insight) {
    f.isRead.Some? ==> i.isRead == f.isRead.value
  }

  predicate DismissedOk(f: InsightFilter, i: Insight) {
    f.isDismissed.Some? ==> i.isDismissed == f.isDismissed.value
  }

  /** An insight belongs in the view of `f`. */
  predicate Matches(f: InsightFilter, i: Insight) {
    CategoryOk(f, i) && PriorityOk(f, i) && SourceOk(f, i) && ReadOk(f, i) && DismissedOk(f, i)
  }

  function ListsOk(f: InsightFilter): Insight -> bool {
    (i: Insight) => CategoryOk(f, i) && PriorityOk(f, i) && SourceOk(f, i)
  }

  function MatchesFn(f: InsightFilter): Insight -> bool {
    (i: Insight) => Matches(f, i)
  }

  /** The list criteria narrow to the insights meeting all three, in order. */
  lemma {:induction false} NarrowByListsIsFilter(f: InsightFilter, s0: seq<Insight>)
    ensures NarrowByLists(f, s0) == Filter(s0, ListsOk(f))
  {
    var m0 := (i: Insight) => true;
    var m1 := (i: Insight) => CategoryOk(f, i);
    var m2 := (i: Insight) => CategoryOk(f, i) && PriorityOk(f, i);
    FilterKeepsAll(s0, m0);
    var a1 := f.categories.Some? && |f.categories.value| > 0;
    var s1 := if a1 then Filter(s0, InCategories(f.categories.value)) else s0;
    FilterStep(s0, s0, s1, a1, m0, if a1 then InCategories(f.categories.value) else m0, m1);
    var a2 := f.priorities.Some? && |f.priorities.value| > 0;
    var s2 := if a2 then Filter(s1, InPriorities(f.priorities.value)) else s1;
    FilterStep(s0, s1, s2, a2, m1, if a2 then InPriorities(f.priorities.value) else m0, m2);
    var a3 := f.sources.Some? && |f.sources.value| > 0;
    var s3 := if a3 then Filter(s2, InSources(f.sources.value)) else s2;
    FilterStep(s0, s2, s3, a3, m2, if a3 then InSources(f.sources.value) else m0, ListsOk(f));
  }

  function ListsAndReadOk(f: InsightFilter): Insight -> bool {
    (i: Insight) => CategoryOk(f, i) && PriorityOk(f, i) && SourceOk(f, i) && ReadOk(f, i)
  }

  /** The flag narrowings, applied to what the lists let through, complete
      the filter by `Matches`. */
  lemma NarrowByFlagsIsFilter(f: InsightFilter, s0: seq<Insight>)
    ensures NarrowByFlags(f, Filter(s0, ListsOk(f))) == Filter(s0, MatchesFn(f))
  {
    var m0 := (i: Insight) => true;
    var s3 := Filter(s0, ListsOk(f));
    var a4 := f.isRead.Some?;
    var step4 := if a4 then ReadIs(f.isRead.value) else m0;
    var s4 := if a4 then Filter(s3, step4) else s3;
    forall x ensures ListsAndReadOk(f)(x) <==> ListsOk(f)(x) && (a4 ==> step4(x)) {
    }
    FilterStep(s0, s3, s4, a4, ListsOk(f), step4, ListsAndReadOk(f));
    var a5 := f.isDismissed.Some?;
    var step5 := if a5 then DismissedIs(f.isDismissed.value) else m0;
    var s5 := if a5 then Filter(s4, step5) else s4;
    forall x ensures MatchesFn(f)(x) <==> ListsAndReadOk(f)(x) && (a5 ==> step5(x)) {
    }
    FilterStep(s0, s4, s5, a5, ListsAndReadOk(f), step5, MatchesFn(f));
    assert NarrowByFlags(f, s3) == s5;
  }

  /** The chained narrowing is a single filter by `Matches`: an insight is in
      the view exactly when it meets every active criterion, in list order. */
  lemma FilteredIsMatches(st: InsightsState)
    ensures GetFilteredInsights(st) == Filter(st.insights, MatchesFn(st.filter))
  {
    NarrowByListsIsFilter(st.filter, st.insights);
    NarrowByFlagsIsFilter(st.filter, st.insights);
  }

  /** After `clearFilter` the view is every insight not yet dismissed. */
  lemma ClearedViewHidesDismissed(st: InsightsState)
    ensures GetFilteredInsights(ClearFilter(st)) == Filter(st.insights, DismissedIs(false))
  {
  }

  /** The unread insights; with a consistent counter there are exactly as
      many as it says. */
  function GetUnreadInsights(st: InsightsState): (r: seq<Insight>)
    ensures forall k :: 0 <= k < |r| ==> IsUnread(r[k]) && r[k] in st.insights
    ensures forall k :: 0 <= k < |st.insights| && IsUnread(st.insights[k]) ==> st.insights[k] in r
    ensures Consistent(st) ==> |r| == st.unreadCount
  {
    Filter(st.insights, IsUnread)
  }

  /** The insights of one category. */
  function GetInsightsByCategory(st: InsightsState, c: InsightCategory): (r: seq<Insight>)
    ensures forall k :: 0 <= k < |r| ==> r[k].category == c && r[k] in st.insights
    ensures forall k :: 0 <= k < |st.insights| && st.insights[k].category == c ==> st.insights[k] in r
  {
    Filter(st.insights, (i: Insight) => i.category == c)
  }

  /** The category listing is the view of a filter naming only that
      category. */
  lemma ByCategoryIsView(st: InsightsState, c: InsightCategory)
    ensures GetInsightsByCategory(st, c)
         == GetFilteredInsights(st.(filter := InsightFilter(Some([c]), None, None, None, None)))
  {
    FilterExt(st.insights, (i: Insight) => i.category == c, InCategories([c]));
  }
}
