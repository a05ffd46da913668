/** The statistics store: the overall figures, the achievement list and the
    selected time range. */
module StatsStore {
  import opened Wrappers
  import opened Seqs

  datatype TimeRange = Today | Week | Month | Quarter | Year | AllTime | CustomRangeKind

  datatype CustomTimeRange = CustomTimeRange(startDate: string, endDate: string)

  /** The nested statistics record is opaque here: named figures. */
  datatype OverallStats = OverallStats(figures: map<string, int>)

  datatype AchievementCategory = VideoCat | KnowledgeCat | GoalCat | HabitCat | SocialCat | CreationCat

  datatype Rarity = Common | Rare | Epic | Legendary

  datatype Achievement = Achievement(
    id: string,
    title: string,
    description: string,
    icon: string,
    unlockedAt: Option<string>,
    progress: Option<int>,
    requirement: int,
    category: AchievementCategory,
    rarity: Rarity)

  datatype StatsState = StatsState(
    overallStats: Option<OverallStats>,
    achievements: seq<Achievement>,
    timeRange: TimeRange,
    customRange: Option<CustomTimeRange>)

  /** Nothing loaded, the month selected, no custom range. */
  const Initial := StatsState(None, [], Month, None)

  function SetOverallStats(st: StatsState, s: OverallStats): (r: StatsState)
    ensures r.overallStats == Some(s) && r.(overallStats := st.overallStats) == st
  {
    st.(overallStats := Some(s))
  }

  function SetAchievements(st: StatsState, xs: seq<Achievement>): (r: StatsState)
    ensures r.achievements == xs && r.(achievements := st.achievements) == st
  {
    st.(achievements := xs)
  }

  /** Selects a range; the custom range is dropped unless one is given. */
  function SetTimeRange(st: StatsState, range: TimeRange, customRange: Option<CustomTimeRange>): (r: StatsState)
    ensures r.timeRange == range && r.customRange == customRange
    ensures r.overallStats == st.overallStats && r.achievements == st.achievements
  {
    st.(timeRange := range, customRange := customRange)
  }

  /** The last range selected wins: an earlier custom range never survives a
      later selection without one. */
  lemma SetTimeRangeLastWins(st: StatsState, a: TimeRange, ca: Option<CustomTimeRange>, b: TimeRange)
    ensures SetTimeRange(SetTimeRange(st, a, ca), b, None) == SetTimeRange(st, b, None)
    ensures SetTimeRange(st, b, None).customRange.None?
  {
  }

  /** The two loaders overwrite: the last value set wins, and setting one
      never disturbs the other. */
  lemma SettersLastWins(st: StatsState, s1: OverallStats, s2: OverallStats, xs: seq<Achievement>, ys: seq<Achievement>)
    ensures SetOverallStats(SetOverallStats(st, s1), s2) == SetOverallStats(st, s2)
    ensures SetAchievements(SetAchievements(st, xs), ys) == SetAchievements(st, ys)
    ensures SetAchievements(SetOverallStats(st, s1), xs) == SetOverallStats(SetAchievements(st, xs), s1)
  {
  }

  predicate Unlocked(a: Achievement) {
    a.unlockedAt.Some? && a.progress == Some(100)
  }

  function AchievementIdIs(id: string): Achievement -> bool {
    (a: Achievement) => a.id == id
  }

  function Unlock(a: Achievement, now: string): (r: Achievement)
    ensures Unlocked(r) && r.unlockedAt == Some(now)
    ensures r.(unlockedAt := a.unlockedAt, progress := a.progress) == a
  {
    a.(unlockedAt := Some(now), progress := Some(100))
  }

  /** Unlocks every achievement with the id at time `now`. */
  function UnlockAchievement(st: StatsState, id: string, now: string): (r: StatsState)
    ensures |r.achievements| == |st.achievements|
    ensures forall k :: 0 <= k < |st.achievements| && st.achievements[k].id != id ==>
      r.achievements[k] == st.achievements[k]
    ensures forall k :: 0 <= k < |st.achievements| && st.achievements[k].id == id ==>
      Unlocked(r.achievements[k]) && r.achievements[k].unlockedAt == Some(now)
    ensures forall k :: 0 <= k < |st.achievements| ==> r.achievements[k].id == st.achievements[k].id
    ensures r.(achievements := st.achievements) == st
  {
    st.(achievements := MapWhere(st.achievements, AchievementIdIs(id), (a: Achievement) => Unlock(a, now)))
  }

  /** Unlocking again only moves the unlock time; the set of unlocked
      achievements never shrinks. */
  lemma UnlockAgain(st: StatsState, id: string, t1: string, t2: string)
    ensures UnlockAchievement(UnlockAchievement(st, id, t1), id, t2) == UnlockAchievement(st, id, t2)
    ensures forall k :: 0 <= k < |st.achievements| && Unlocked(st.achievements[k]) ==>
      Unlocked(UnlockAchievement(st, id, t1).achievements[k])
  {
    var r1 := UnlockAchievement(st, id, t1);
    var r2 := UnlockAchievement(r1, id, t2);
    var r3 := UnlockAchievement(st, id, t2);
    assert forall k :: 0 <= k < |st.achievements| ==> r2.achievements[k] == r3.achievements[k];
  }
}
