/** Insight records and the element-wise updates both the insights store and
    the hub store apply to them, with how those updates move the counts of
    unread insights. */
module InsightTypes {
  import opened Wrappers
  import opened Seqs

  datatype InsightSource = AiAnalysis | PatternDetection | UserBehavior | Community | Manual

  datatype InsightPriority = Critical | High | Medium | Low

  datatype InsightCategory =
    | LearningPattern | ContentRecommendation | GoalSuggestion | HabitInsight
    | Productivity | Achievement | Warning | Opportunity

  datatype Insight = Insight(
    id: string,
    category: InsightCategory,
    title: string,
    description: string,
    source: InsightSource,
    priority: InsightPriority,
    createdAt: string,
    isRead: bool,
    isDismissed: bool)

  /** The criteria of an insight list view; an absent field does not
      constrain the view. */
  datatype InsightFilter = InsightFilter(
    categories: Option<seq<InsightCategory>>,
    priorities: Option<seq<InsightPriority>>,
    sources: Option<seq<InsightSource>>,
    isRead: Option<bool>,
    isDismissed: Option<bool>)

  function IdIs(id: string): Insight -> bool {
    (i: Insight) => i.id == id
  }

  /** Unread in the insights store's sense: neither read nor dismissed. */
  predicate IsUnread(i: Insight) {
    !i.isRead && !i.isDismissed
  }

  /** Unread in the hub store's sense: not read, dismissed or not. */
  predicate IsNotRead(i: Insight) {
    !i.isRead
  }

  function UnreadWithId(id: string): Insight -> bool {
    (i: Insight) => i.id == id && IsUnread(i)
  }

  function NotReadWithId(id: string): Insight -> bool {
    (i: Insight) => i.id == id && IsNotRead(i)
  }

  /** No two insights share an id. */
  predicate UniqueIds(s: seq<Insight>) {
    forall i, j :: 0 <= i < j < |s| ==> s[i].id != s[j].id
  }

  /** `s.map(i => i.id === id ? { ...i, isRead: true } : i)`. */
  function MarkRead(s: seq<Insight>, id: string): (r: seq<Insight>)
    ensures |r| == |s|
    ensures forall k :: 0 <= k < |s| ==>
      r[k] == (if s[k].id == id then s[k].(isRead := true) else s[k])
    decreases |s|
  {
    if |s| == 0 then []
    else [if s[0].id == id then s[0].(isRead := true) else s[0]] + MarkRead(s[1..], id)
  }

  /** `s.map(i => i.id === id ? { ...i, isDismissed: true } : i)`. */
  function MarkDismissed(s: seq<Insight>, id: string): (r: seq<Insight>)
    ensures |r| == |s|
    ensures forall k :: 0 <= k < |s| ==>
      r[k] == (if s[k].id == id then s[k].(isDismissed := true) else s[k])
    decreases |s|
  {
    if |s| == 0 then []
    else [if s[0].id == id then s[0].(isDismissed := true) else s[0]] + MarkDismissed(s[1..], id)
  }

  /** Marking `id` read removes exactly the unread insights with that id from
      the unread count. */
  lemma {:induction false} MarkReadUnread(s: seq<Insight>, id: string)
    ensures |Filter(MarkRead(s, id), IsUnread)| + |Filter(s, UnreadWithId(id))| == |Filter(s, IsUnread)|
    decreases |s|
  {
    if |s| > 0 {
      var r := MarkRead(s, id);
      assert r[1..] == MarkRead(s[1..], id);
      FilterLength(r, IsUnread);
      FilterLength(s, IsUnread);
      FilterLength(s, UnreadWithId(id));
      MarkReadUnread(s[1..], id);
    }
  }

  /** Dismissing `id` removes exactly the unread insights with that id from
      the unread count. */
  lemma {:induction false} MarkDismissedUnread(s: seq<Insight>, id: string)
    ensures |Filter(MarkDismissed(s, id), IsUnread)| + |Filter(s, UnreadWithId(id))| == |Filter(s, IsUnread)|
    decreases |s|
  {
    if |s| > 0 {
      var r := MarkDismissed(s, id);
      assert r[1..] == MarkDismissed(s[1..], id);
      FilterLength(r, IsUnread);
      FilterLength(s, IsUnread);
      FilterLength(s, UnreadWithId(id));
      MarkDismissedUnread(s[1..], id);
    }
  }

  /** Marking `id` read removes exactly the not-read insights with that id
      from the not-read count. */
  lemma {:induction false} MarkReadNotRead(s: seq<Insight>, id: string)
    ensures |Filter(MarkRead(s, id), IsNotRead)| + |Filter(s, NotReadWithId(id))| == |Filter(s, IsNotRead)|
    decreases |s|
  {
    if |s| > 0 {
      var r := MarkRead(s, id);
      assert r[1..] == MarkRead(s[1..], id);
      FilterLength(r, IsNotRead);
      FilterLength(s, IsNotRead);
      FilterLength(s, NotReadWithId(id));
      MarkReadNotRead(s[1..], id);
    }
  }

  /** With unique ids, the insights matching `p` and carrying the id of the
      first match number one or zero, as that one insight does or does not
      satisfy `p`. */
  lemma {:induction false} UniqueIdCount(s: seq<Insight>, id: string, p: Insight -> bool, pid: Insight -> bool)
    requires UniqueIds(s)
    requires forall x :: pid(x) <==> x.id == id && p(x)
    requires 0 <= FindIndex(s, IdIs(id))
    ensures |Filter(s, pid)| == (if p(s[FindIndex(s, IdIs(id))]) then 1 else 0)
    decreases |s|
  {
    if s[0].id == id {
      assert forall k :: 0 <= k < |s[1..]| ==> s[1..][k].id != id by {
        forall k | 0 <= k < |s[1..]| ensures s[1..][k].id != id {
          assert s[1..][k] == s[k + 1];
        }
      }
      NoneWithId(s[1..], id, pid);
    } else {
      assert UniqueIds(s[1..]) by {
        forall i, j | 0 <= i < j < |s[1..]| ensures s[1..][i].id != s[1..][j].id {
          assert s[1..][i] == s[i + 1] && s[1..][j] == s[j + 1];
        }
      }
      UniqueIdCount(s[1..], id, p, pid);
    }
  }

  lemma {:induction false} NoneWithId(s: seq<Insight>, id: string, pid: Insight -> bool)
    requires forall x :: pid(x) ==> x.id == id
    requires forall k :: 0 <= k < |s| ==> s[k].id != id
    ensures |Filter(s, pid)| == 0
    decreases |s|
  {
    if |s| > 0 {
      NoneWithId(s[1..], id, pid);
    }
  }

  /** Ids survive marking, so the first match stays where it was. */
  lemma {:induction false} SameIdsSameIndex(s: seq<Insight>, t: seq<Insight>, id: string)
    requires |s| == |t|
    requires forall k :: 0 <= k < |s| ==> s[k].id == t[k].id
    ensures FindIndex(s, IdIs(id)) == FindIndex(t, IdIs(id))
    decreases |s|
  {
    if |s| > 0 {
      SameIdsSameIndex(s[1..], t[1..], id);
    }
  }

  /** Dismissing again changes nothing. */
  lemma MarkDismissedIdempotent(s: seq<Insight>, id: string)
    ensures MarkDismissed(MarkDismissed(s, id), id) == MarkDismissed(s, id)
  {
  }
}
