/** The main layout derives the application mode from the current route and
    pushes it into the application shell store. */
module MainLayout {
  import opened AppStore

  const WatchPrefix := "/watch/"
  const TripPlannerPrefix := "/trip-planner"
  const KnowledgeBasePrefix := "/me/knowledge-base"

  /** The mode for a route: the first matching prefix wins, anything else
      falls back to the default mode. */
  function AppModeForPath(path: string): (m: AppMode)
    ensures m == VideoConsumption || m == ItineraryPlanning || m == KnowledgeManagement || m == Default
  {
    if WatchPrefix <= path then VideoConsumption
    else if TripPlannerPrefix <= path then ItineraryPlanning
    else if KnowledgeBasePrefix <= path then KnowledgeManagement
    else Default
  }

  /** A path with one of the prefixes has that prefix's second character,
      and the three second characters differ, so no path starts with two of
      the prefixes. */
  lemma PrefixesDisjoint(path: string)
    ensures WatchPrefix <= path ==> |path| > 1 && path[1] == 'w'
    ensures TripPlannerPrefix <= path ==> |path| > 1 && path[1] == 't'
    ensures KnowledgeBasePrefix <= path ==> |path| > 1 && path[1] == 'm'
    ensures !(WatchPrefix <= path && TripPlannerPrefix <= path)
    ensures !(WatchPrefix <= path && KnowledgeBasePrefix <= path)
    ensures !(TripPlannerPrefix <= path && KnowledgeBasePrefix <= path)
  {
    if WatchPrefix <= path {
      assert path[1] == WatchPrefix[1];
    }
    if TripPlannerPrefix <= path {
      assert path[1] == TripPlannerPrefix[1];
    }
    if KnowledgeBasePrefix <= path {
      assert path[1] == KnowledgeBasePrefix[1];
    }
  }

  /** Each mode is chosen exactly for the paths with its own prefix, so the
      order of the tests does not matter; the default covers the rest. */
  lemma AppModeForPathSpec(path: string)
    ensures AppModeForPath(path) == VideoConsumption <==> WatchPrefix <= path
    ensures AppModeForPath(path) == ItineraryPlanning <==> TripPlannerPrefix <= path
    ensures AppModeForPath(path) == KnowledgeManagement <==> KnowledgeBasePrefix <= path
    ensures AppModeForPath(path) == Default <==>
      !(WatchPrefix <= path) && !(TripPlannerPrefix <= path) && !(KnowledgeBasePrefix <= path)
  {
    PrefixesDisjoint(path);
  }

  /** Nested routes keep their section's mode; `/watch` without the slash and
      the root fall back to the default. */
  lemma AppModeForPathExamples()
    ensures AppModeForPath("/watch/example") == VideoConsumption
    ensures AppModeForPath("/trip-planner") == ItineraryPlanning
    ensures AppModeForPath("/trip-planner/trip1") == ItineraryPlanning
    ensures AppModeForPath("/me/knowledge-base") == KnowledgeManagement
    ensures AppModeForPath("/watch") == Default
    ensures AppModeForPath("/") == Default
  {
    assert WatchPrefix <= "/watch/example";
    PrefixesDisjoint("/trip-planner");
    assert TripPlannerPrefix <= "/trip-planner";
    PrefixesDisjoint("/trip-planner/trip1");
    assert TripPlannerPrefix <= "/trip-planner/trip1";
    PrefixesDisjoint("/me/knowledge-base");
    assert KnowledgeBasePrefix <= "/me/knowledge-base";
    PrefixesDisjoint("/watch");
  }

  /** The effect run after each route change: the store's mode becomes the
      route's mode and nothing else in the shell changes. */
  function SyncAppMode(app: AppState, path: string): (r: AppState)
    ensures r.appMode == AppModeForPath(path)
    ensures r.(appMode := app.appMode) == app
  {
    SetAppMode(app, AppModeForPath(path))
  }

  /** Re-running the effect for the same route changes nothing, and the mode
      after a navigation depends only on the last route. */
  lemma SyncAppModeLaws(app: AppState, p: string, q: string)
    ensures SyncAppMode(SyncAppMode(app, p), p) == SyncAppMode(app, p)
    ensures SyncAppMode(SyncAppMode(app, p), q) == SyncAppMode(app, q)
  {
  }
}
