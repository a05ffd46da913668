# videco client state, modelled in Dafny

videco is a React client for watching videos, planning trips and keeping a
personal knowledge and goal hub. Its state lives in Zustand stores, and each
store action is a reducer: it reads the current state and returns the next one.
This project models those reducers and derived getters as pure Dafny functions
on immutable datatypes. It does the same for the few component functions that
decide what the stores receive:

- the itinerary panel's drag-and-drop handler;
- the layout's route-to-mode mapping;
- the sidebar's highlight test;
- the header's magic-keyword search.

Each Dafny module follows one source file:

| module | source |
|---|---|
| `AppStore` | `store/appStore.ts` |
| `StatsStore` | `store/statsStore.ts` |
| `PlaylistStore` | `store/playlistStore.ts` |
| `KnowledgeStore` | `store/knowledgeStore.ts` |
| `TripStore` | `store/tripStore.ts` |
| `ItineraryPlannerPanel` | `components/panels/ItineraryPlannerPanel.tsx` |
| `InsightTypes` | the insight records of `types/insight.types.ts`, plus the `map` rewrites both insight stores share |
| `InsightsStore` | `store/insightsStore.ts` |
| `HubStore` | `store/hubStore.ts` |
| `GoalStore` | `store/goalStore.ts` |
| `MainLayout` | `layouts/MainLayout.tsx` |
| `DefaultSidebar` | `components/layout/DefaultSidebar.tsx` |
| `MainHeader` | `components/layout/MainHeader.tsx` |

Three modules are shared:

- `Wrappers` holds `Option` and `Result`.
- `Seqs` holds `findIndex`, `find`, `filter`, `map`-where and the index arithmetic of `splice`.
- `Text` holds `includes` and decimal rendering.

The model translates the JavaScript as follows:

- A JavaScript spread patch `{ ...x, ...patch }` becomes a patch datatype whose absent fields are `None`.
- `Array.prototype.find` and `findIndex` become `Seqs.Find` and `Seqs.FindIndex`.
- `filter` becomes `Seqs.Filter`.
- A `map` that rewrites the elements with a given id becomes a recursive rewrite with an element-wise contract.
- Time stamps and generated ids (`new Date().toISOString()`, `Date.now()`) are parameters.

The main properties proved are these:

- **Insight counters.** Both insight stores keep an unread counter beside their list.
  - `InsightsStore.Consistent` says the insights store's counter equals the number of insights that are neither read nor dismissed.
  - `SetInsights`, `AddInsight` and `BatchDismiss` preserve it. `Dismiss` preserves it when the insight ids are unique.
  - With unique ids, `markAsRead` preserves it exactly when its target is not dismissed-but-unread (see Findings).
  - Whatever the state, `InsightsStore.MarkAsReadCases` and `InsightsStore.DismissCases` give each action's exact effect on the list and the counter.
  - In the hub store the counter counts unread insights, dismissed or not. `HubStore.DismissInsightHubConsistency` shows that `dismissInsight` breaks that count exactly when it dismisses an unread insight. `HubStore.LoadedCountsDiverge` shows that the two stores' counts for the same list differ by the dismissed-unread insights.
- **Filtered views.** The chained `filter` calls of `getFilteredInsights` and `getFilteredGoals` select exactly the elements that meet the conjunction of the active criteria, in their original order.
- **Moving trip locations.** `moveLocation` neither creates nor loses a location: the multiset of a trip's locations is unchanged. It keeps every trip's shape (ids, titles, day count). It moves the dragged location exactly where `splice` puts it. A drop onto the place the item came from changes nothing.
- **Drag and drop.** The panel's `handleDragEnd` always clears the dragged id. Every move it requests names containers that exist. When the day ids are distinct and none is "saved", the index also holds the dragged item, so the move meets the store's precondition.
- **Milestone progress.** After `completeMilestone`, the progress is the rounded percentage of completed milestones. It lies between 0 and 100, reaches 100 when the rest were done, and is never below the percentage of milestones completed before the call. On a goal with no milestones it is NaN.
- **Route and shell.** Every route maps to exactly one application mode. Modal state stays coherent (open exactly when it has content) under any sequence of shell actions, including the header's magic search.

## Model

All source paths are under `frontend/videco/src/`.

| member | source | states |
|---|---|---|
| AppStore.SetAppMode | frontend/videco/src/store/appStore.ts:38 | the mode becomes the given one and no other shell field changes |
| AppStore.ToggleRightPanel | frontend/videco/src/store/appStore.ts:40-42 | an explicit flag sets the panel's openness, no flag flips it; the panel content is untouched |
| AppStore.SetRightPanelContent | frontend/videco/src/store/appStore.ts:44-47 | showing content also opens the panel; the modal and mode are untouched |
| AppStore.CloseRightPanel | frontend/videco/src/store/appStore.ts:49-52 | the panel ends closed and empty; nothing else changes |
| AppStore.OpenModal | frontend/videco/src/store/appStore.ts:54-57 | the modal ends open with the given content; nothing else changes |
| AppStore.CloseModal | frontend/videco/src/store/appStore.ts:59-62 | the modal ends closed and empty; nothing else changes |
| AppStore.PanelLaws | frontend/videco/src/store/appStore.ts:40-62 | toggling twice is a no-op; closing after showing content equals closing; closing the modal undoes opening it |
| AppStore.RunKeepsModalCoherent | frontend/videco/src/store/appStore.ts:38-62 | any action sequence from a coherent state keeps the modal open exactly when it has content; non-modal actions never touch the modal |
| AppStore.ReachableModalCoherent | frontend/videco/src/store/appStore.ts:32-62 | every state reachable from the initial state has a coherent modal |
| AppStore.StepFrames | frontend/videco/src/store/appStore.ts:38-62 | non-modal actions leave the modal fields alone and modal actions touch nothing else |
| AppStore.PanelFlagAndContentIndependent | frontend/videco/src/store/appStore.ts:40-47 | the panel flag and the panel content are independent: the panel can be open with no content, and closed by a toggle while it still holds content |
| StatsStore.SetOverallStats | frontend/videco/src/store/statsStore.ts:49 | the overall stats are replaced and nothing else changes |
| StatsStore.SetAchievements | frontend/videco/src/store/statsStore.ts:50 | the achievement list is replaced and nothing else changes |
| StatsStore.SettersLastWins | frontend/videco/src/store/statsStore.ts:49-50 | setting the overall stats or the achievements twice keeps the last value, and the two setters commute |
| StatsStore.SetTimeRange | frontend/videco/src/store/statsStore.ts:52-53 | sets the range and the custom range; the stats and achievements stay |
| StatsStore.SetTimeRangeLastWins | frontend/videco/src/store/statsStore.ts:52-53 | the last range set wins, and a range set without a custom range clears any earlier custom range |
| StatsStore.Unlock | frontend/videco/src/store/statsStore.ts:223 | an unlocked achievement has the given unlock time and full progress, with its other fields kept |
| StatsStore.UnlockAchievement | frontend/videco/src/store/statsStore.ts:219-226 | the achievements with the id become unlocked at the time; others, ids, order and the rest of the state are kept |
| StatsStore.UnlockAgain | frontend/videco/src/store/statsStore.ts:219-226 | unlocking again only moves the unlock time; an unlocked achievement stays unlocked |
| PlaylistStore.SetSeedVideo | frontend/videco/src/store/playlistStore.ts:50-54 | a new seed starts an empty sequence, which trivially has distinct ids |
| PlaylistStore.AddModule | frontend/videco/src/store/playlistStore.ts:56-61 | a module whose id is present leaves the sequence alone, otherwise it is appended; afterwards its id is present |
| PlaylistStore.AddModuleLaws | frontend/videco/src/store/playlistStore.ts:56-61 | adding keeps ids distinct, and adding the same module twice is adding it once |
| PlaylistStore.AddAllExtends | frontend/videco/src/store/playlistStore.ts:56-61 | any run of additions only appends, by at most one module per addition, and only the modules added |
| PlaylistStore.AddAllFromSeed | frontend/videco/src/store/playlistStore.ts:56-61 | any run of additions keeps ids distinct and ends containing every added id |
| KnowledgeStore.AllTagsAppend | frontend/videco/src/store/knowledgeStore.ts:74 | the flattened tags of two card lists are the two flattenings concatenated |
| KnowledgeStore.InAllTags | frontend/videco/src/store/knowledgeStore.ts:74 | a tag is in the flattening exactly when some card carries it |
| KnowledgeStore.DedupSpec | frontend/videco/src/store/knowledgeStore.ts:75 | set-based deduplication keeps every element once, and in first-occurrence order |
| KnowledgeStore.DedupSnoc | frontend/videco/src/store/knowledgeStore.ts:75 | appending a new element to the input appends it to the result; a repeated element changes nothing |
| KnowledgeStore.Tags | frontend/videco/src/store/knowledgeStore.ts:73-76 | the tag list has no duplicates, holds exactly the tags of some card, and orders them by first appearance |
| KnowledgeStore.UniqueTags | frontend/videco/src/store/knowledgeStore.ts:73-76 | a loop that collects the tags card by card into a seen list computes exactly the tag list |
| KnowledgeStore.AddCard | frontend/videco/src/store/knowledgeStore.ts:73-80 | the new card goes first; the tags listed afterwards are exactly the old tags and the card's, and the card's tags lead the flattening |
| KnowledgeStore.PrependCardTags | frontend/videco/src/store/knowledgeStore.ts:73-80 | with a card put in front, the listed tags are the old tags plus the card's, and no others |
| KnowledgeStore.PrependCardAllTags | frontend/videco/src/store/knowledgeStore.ts:73-80 | with a card put in front, its tags come first in the flattening, followed by the old flattening |
| TripStore.FindTripById | frontend/videco/src/store/tripStore.ts:90-92 | nothing when no trip has the id, otherwise the first trip with it |
| TripStore.Container | frontend/videco/src/store/tripStore.ts:102-105 | "saved" names the saved list; any other id names a list exactly when some day has that id, and then the locations of the first such day |
| TripStore.SameDayIdsSameDayIndex | frontend/videco/src/store/tripStore.ts:118 | day lookups depend only on the day ids |
| TripStore.UpdatedDayKeepsIndices | frontend/videco/src/store/tripStore.ts:118-119 | replacing a day's locations does not change where any day id is found |
| TripStore.UpdatedDayContainers | frontend/videco/src/store/tripStore.ts:115-120 | writing a day's list replaces exactly that container and keeps the trip's shape |
| TripStore.WithContainer | frontend/videco/src/store/tripStore.ts:115-120 | writing a container replaces that list only, keeping the trip's shape and every other container |
| TripStore.ArrayMove | frontend/videco/src/store/tripStore.ts:114 | moving within a list keeps its length and its elements as a multiset |
| TripStore.ArrayMovePlacement | frontend/videco/src/store/tripStore.ts:114 | the moved element lands at the target (a negative one counted back from the whole list's end, then splice-normalised), and the rest keep their order |
| TripStore.ArrayMoveNegativeTarget | frontend/videco/src/store/tripStore.ts:114 | moving the first of three elements to -1 puts it last |
| TripStore.ArrayMoveSameIndex | frontend/videco/src/store/tripStore.ts:114 | moving an element onto its own index changes nothing |
| TripStore.MoveLocation | frontend/videco/src/store/tripStore.ts:94-130 | an unknown trip id changes nothing; only the trip with the id can change |
| TripStore.MoveLocationUnresolvedIsNoop | frontend/videco/src/store/tripStore.ts:96-110 | a container id that names no list makes the move a no-op |
| TripStore.DaysBagUpdate | frontend/videco/src/store/tripStore.ts:119 | replacing one day's list swaps that list's locations in the trip's multiset of day locations |
| TripStore.WithContainerBag | frontend/videco/src/store/tripStore.ts:115-120 | writing a container swaps its old locations for the new ones in the trip's multiset of locations |
| TripStore.MoveWithinConserves | frontend/videco/src/store/tripStore.ts:112-120 | reordering within a container keeps the trip's locations as a multiset |
| TripStore.MoveAcrossConserves | frontend/videco/src/store/tripStore.ts:121-125 | moving between containers keeps the trip's locations as a multiset |
| TripStore.MoveLocationConserves | frontend/videco/src/store/tripStore.ts:94-130 | no trip gains or loses a location |
| TripStore.MoveLocationKeepsShape | frontend/videco/src/store/tripStore.ts:94-130 | every trip keeps its id, title, counts and day ids and titles |
| TripStore.MoveLocationWithin | frontend/videco/src/store/tripStore.ts:112-120 | a same-container move reorders that container by `arrayMove` and leaves every other container alone |
| TripStore.MoveAcrossLists | frontend/videco/src/store/tripStore.ts:121-125 | a cross-container move removes the item at the normalised index and inserts it at the normalised target; other containers stay |
| TripStore.MoveLocationSlot | frontend/videco/src/store/tripStore.ts:96-128 | when both containers resolve, the trip's slot receives the moved trip |
| TripStore.SpliceSlices | frontend/videco/src/store/tripStore.ts:123-124 | the two `splice` calls cut the item out and put it before the target index, or at the end when the index is past it |
| TripStore.MoveLocationAcross | frontend/videco/src/store/tripStore.ts:121-128 | a cross-container move leaves the source without the item and the target with it at the drop index, or at the end |
| TripStore.WithContainerSame | frontend/videco/src/store/tripStore.ts:115-120 | writing a container's own list back changes nothing |
| TripStore.MoveLocationSameIndexIsNoop | frontend/videco/src/store/tripStore.ts:112-120 | dropping an item back on its own index changes nothing |
| ItineraryPlannerPanel.ContainerIds | frontend/videco/src/components/panels/ItineraryPlannerPanel.tsx:128 | "saved" comes first; the ids listed are exactly "saved" and the day ids, and each names a list of the trip |
| ItineraryPlannerPanel.FindContainerId | frontend/videco/src/components/panels/ItineraryPlannerPanel.tsx:131-136 | "saved" if the saved list holds the id, else the first day holding it, else nothing |
| ItineraryPlannerPanel.FindContainerIdResolves | frontend/videco/src/components/panels/ItineraryPlannerPanel.tsx:131-136 | a found container id always names a list of the trip |
| ItineraryPlannerPanel.OverContainerId | frontend/videco/src/components/panels/ItineraryPlannerPanel.tsx:151 | a container id dropped on is used as is; anything else is looked up as an item |
| ItineraryPlannerPanel.DragStartThenDrop | frontend/videco/src/components/panels/ItineraryPlannerPanel.tsx:138-187 | a drag started on an item and dropped anywhere clears the remembered id, and any move it requests starts from the container holding the item |
| ItineraryPlannerPanel.OverIndex | frontend/videco/src/components/panels/ItineraryPlannerPanel.tsx:163-166 | the index of the first item with the target id, or the list's length when none has it |
| ItineraryPlannerPanel.HandleDragEnd | frontend/videco/src/components/panels/ItineraryPlannerPanel.tsx:142-187 | a drop onto nothing requests no move and clears the dragged id |
| ItineraryPlannerPanel.OverContainerIdResolves | frontend/videco/src/components/panels/ItineraryPlannerPanel.tsx:151-160 | a resolved drop-target container always names a list |
| ItineraryPlannerPanel.DragEndClearsActiveId | frontend/videco/src/components/panels/ItineraryPlannerPanel.tsx:142-187 | every drop clears the dragged id, because the early return at line 160 cannot be reached |
| ItineraryPlannerPanel.DropUnresolvedIsNoop | frontend/videco/src/components/panels/ItineraryPlannerPanel.tsx:153-156 | an item or target in no container, or in one with an empty id, requests no move |
| ItineraryPlannerPanel.DropResolvedCall | frontend/videco/src/components/panels/ItineraryPlannerPanel.tsx:158-184 | a resolved drop requests a move exactly when the containers or the indices differ, with the computed arguments |
| ItineraryPlannerPanel.DropCallShape | frontend/videco/src/components/panels/ItineraryPlannerPanel.tsx:149-175 | a requested move names the dragged item's container and index and the target's container |
| ItineraryPlannerPanel.FoundContainerHoldsItem | frontend/videco/src/components/panels/ItineraryPlannerPanel.tsx:131-136 | with distinct container ids, the list a found container id names holds the item |
| ItineraryPlannerPanel.DropCallIsValidMove | frontend/videco/src/components/panels/ItineraryPlannerPanel.tsx:162-175 | with distinct container ids, every requested move takes out a real element, so it meets the store's precondition |
| ItineraryPlannerPanel.DropOntoEmptyDayCall | frontend/videco/src/components/panels/ItineraryPlannerPanel.tsx:163-175 | dropping a saved item on an empty day requests a move to that day's index 0 |
| ItineraryPlannerPanel.DropOntoEmptyDayMove | frontend/videco/src/store/tripStore.ts:121-128 | that move leaves the saved list without the item and the day holding just it |
| InsightTypes.MarkRead | frontend/videco/src/store/insightsStore.ts:96-98 | the insights with the id become read; everything else, and the order, are kept |
| InsightTypes.MarkDismissed | frontend/videco/src/store/insightsStore.ts:111-113 | the insights with the id become dismissed; everything else, and the order, are kept |
| InsightTypes.MarkReadUnread | frontend/videco/src/store/insightsStore.ts:90-101 | marking read removes exactly the unread insights with the id from the unread count |
| InsightTypes.MarkDismissedUnread | frontend/videco/src/store/insightsStore.ts:103-118 | dismissing removes exactly the unread insights with the id from the unread count |
| InsightTypes.MarkReadNotRead | frontend/videco/src/store/hubStore.ts:211-222 | marking read removes exactly the not-read insights with the id from the not-read count |
| InsightTypes.UniqueIdCount | frontend/videco/src/store/insightsStore.ts:92 | with unique ids, the matches of an id-specific predicate are the found insight alone, or none |
| InsightTypes.SameIdsSameIndex | frontend/videco/src/store/insightsStore.ts:92 | lookups by id depend only on the ids |
| InsightTypes.MarkDismissedIdempotent | frontend/videco/src/store/insightsStore.ts:111-113 | dismissing twice equals dismissing once |
| InsightsStore.SetInsights | frontend/videco/src/store/insightsStore.ts:76-80 | loading a list makes the counter consistent with it |
| InsightsStore.AddInsight | frontend/videco/src/store/insightsStore.ts:82-88 | the new insight goes first and the filter is kept; the counter grows by one exactly for an unread, undismissed insight, so its distance from the true count is kept in any state |
| InsightsStore.AddInsightKeepsConsistent | frontend/videco/src/store/insightsStore.ts:82-88 | adding keeps the counter consistent |
| InsightsStore.MarkAsRead | frontend/videco/src/store/insightsStore.ts:90-101 | the list keeps its length, ids and order, and the filter stays |
| InsightsStore.MarkAsReadCases | frontend/videco/src/store/insightsStore.ts:90-101 | a missing or already read target changes nothing; otherwise the insights with the id become read, the others are kept, and the counter drops by one |
| InsightsStore.MarkAsReadConsistency | frontend/videco/src/store/insightsStore.ts:90-101 | with unique ids the counter stays consistent exactly when the target is not dismissed-but-unread; on such a target it ends one too low |
| InsightsStore.MarkAsReadDismissedGoesNegative | frontend/videco/src/store/insightsStore.ts:90-101 | loading one dismissed unread insight and marking it read drives the counter to -1 |
| InsightsStore.MarkAsReadFixed | frontend/videco/src/store/insightsStore.ts:90-101 | the corrected action keeps the list's length and the filter |
| InsightsStore.MarkAsReadFixedKeepsConsistent | frontend/videco/src/store/insightsStore.ts:90-101 | the corrected action keeps the counter consistent and leaves the target read |
| InsightsStore.MarkAsReadIdempotent | frontend/videco/src/store/insightsStore.ts:90-101 | marking read twice equals marking once |
| InsightsStore.Dismiss | frontend/videco/src/store/insightsStore.ts:103-118 | the list keeps its length, ids and order, and the filter stays |
| InsightsStore.DismissCases | frontend/videco/src/store/insightsStore.ts:103-118 | a missing or already dismissed first match changes nothing; otherwise the insights with the id become dismissed and the counter drops by one exactly when that match was unread |
| InsightsStore.DismissKeepsConsistent | frontend/videco/src/store/insightsStore.ts:103-118 | with unique ids dismissing keeps the counter consistent and leaves the target dismissed |
| InsightsStore.DismissIdempotent | frontend/videco/src/store/insightsStore.ts:103-118 | dismissing twice equals dismissing once |
| InsightsStore.MarkListedDismissed | frontend/videco/src/store/insightsStore.ts:130-132 | the listed insights become dismissed; the others, and the order, are kept |
| InsightsStore.MarkListedUnreadCount | frontend/videco/src/store/insightsStore.ts:120-135 | dismissing the listed insights removes exactly the listed unread ones from the unread count |
| InsightsStore.BatchDismiss | frontend/videco/src/store/insightsStore.ts:120-135 | the list keeps its length and the filter stays |
| InsightsStore.MarkListedUnread | frontend/videco/src/store/insightsStore.ts:122-133 | the two-step count the action subtracts equals the number of listed unread insights |
| InsightsStore.BatchDismissKeepsConsistent | frontend/videco/src/store/insightsStore.ts:120-135 | batch dismissal keeps the counter consistent, even with repeated ids, and dismisses every listed insight |
| InsightsStore.MergeFilter | frontend/videco/src/store/insightsStore.ts:139 | each criterion present in the patch replaces the old one; absent criteria keep theirs |
| InsightsStore.SetFilter | frontend/videco/src/store/insightsStore.ts:137-141 | changing the filter never touches the insights or the counter |
| InsightsStore.ClearFilter | frontend/videco/src/store/insightsStore.ts:142 | clearing the filter never touches the insights or the counter |
| InsightsStore.SetFilterLaws | frontend/videco/src/store/insightsStore.ts:137-141 | an empty patch is a no-op, and applying a patch twice equals applying it once |
| InsightsStore.NarrowByLists | frontend/videco/src/store/insightsStore.ts:253-263 | narrowing by the criterion lists only drops insights |
| InsightsStore.NarrowByFlags | frontend/videco/src/store/insightsStore.ts:265-271 | narrowing by the read and dismissed flags only drops insights |
| InsightsStore.GetFilteredInsights | frontend/videco/src/store/insightsStore.ts:248-283 | the view is a sub-multiset of the insights |
| InsightsStore.NarrowByListsIsFilter | frontend/videco/src/store/insightsStore.ts:253-263 | the three list narrowings are one filter by all three list criteria |
| InsightsStore.NarrowByFlagsIsFilter | frontend/videco/src/store/insightsStore.ts:265-271 | the flag narrowings complete that filter to one by every criterion |
| InsightsStore.FilteredIsMatches | frontend/videco/src/store/insightsStore.ts:248-283 | the view is exactly the insights meeting every active criterion, in their original order |
| InsightsStore.ClearedViewHidesDismissed | frontend/videco/src/store/insightsStore.ts:42-48 | after clearing, the view is exactly the insights not dismissed |
| InsightsStore.GetUnreadInsights | frontend/videco/src/store/insightsStore.ts:285-287 | exactly the unread insights; a consistent counter equals their number |
| InsightsStore.GetInsightsByCategory | frontend/videco/src/store/insightsStore.ts:289-291 | exactly the insights of the category |
| InsightsStore.ByCategoryIsView | frontend/videco/src/store/insightsStore.ts:289-291 | the by-category getter equals the filtered view for a filter naming only that category |
| HubStore.MergeWidget | frontend/videco/src/store/hubStore.ts:130 | a patch without an id keeps the widget's id, and an empty patch changes nothing |
| HubStore.MergeWidgetIdempotent | frontend/videco/src/store/hubStore.ts:130 | merging a patch twice equals merging it once |
| HubStore.UpdateWidgetConfig | frontend/videco/src/store/hubStore.ts:125-133 | the widgets with the id are merged with the patch; the others, the order and the rest of the state are kept |
| HubStore.UpdateWidgetConfigIdempotent | frontend/videco/src/store/hubStore.ts:125-133 | updating twice with the same patch equals updating once |
| HubStore.AddWidget | frontend/videco/src/store/hubStore.ts:135-141 | the widget goes last; nothing else changes |
| HubStore.RemoveWidget | frontend/videco/src/store/hubStore.ts:143-149 | exactly the widgets without the id remain |
| HubStore.RemoveUndoesAdd | frontend/videco/src/store/hubStore.ts:135-149 | removing an added widget's id equals removing it before the add; for a fresh id it restores the state |
| HubStore.AddHabit | frontend/videco/src/store/hubStore.ts:158-161 | the habit goes last; nothing else changes |
| HubStore.CompleteAddedHabit | frontend/videco/src/store/hubStore.ts:158-184 | completing a freshly added habit equals adding the completed habit |
| HubStore.UpdateHabit | frontend/videco/src/store/hubStore.ts:163-168 | the habits with the id are merged with the patch; the others, the order and the rest of the state are kept |
| HubStore.UpdateHabitEmptyPatch | frontend/videco/src/store/hubStore.ts:163-168 | an empty patch changes nothing |
| HubStore.Complete | frontend/videco/src/store/hubStore.ts:172-181 | a completion records the date, extends the streak by one and keeps the longest streak at least the current one |
| HubStore.CompleteHabit | frontend/videco/src/store/hubStore.ts:170-184 | only the habits with the id are completed; nothing else changes |
| HubStore.CompleteHabitKeepsStreaks | frontend/videco/src/store/hubStore.ts:170-184 | completing keeps every longest streak at least its current streak |
| HubStore.CompleteTimes | frontend/videco/src/store/hubStore.ts:170-184 | n completions add n to the streak and n entries to the history |
| HubStore.CompleteTimesLongest | frontend/videco/src/store/hubStore.ts:179 | after n completions the longest streak is the larger of the old longest and the new current streak |
| HubStore.AddTimelineActivity | frontend/videco/src/store/hubStore.ts:189-192 | the activity goes first and the earlier ones follow unchanged |
| HubStore.AddTimelineActivities | frontend/videco/src/store/hubStore.ts:189-192 | a run of timeline additions touches nothing but the timeline |
| HubStore.AddTimelineActivitiesNewestFirst | frontend/videco/src/store/hubStore.ts:189-192 | after a run of additions the timeline lists them newest first, followed by the old timeline |
| HubStore.SetInsights | frontend/videco/src/store/hubStore.ts:197-201 | loading a list makes the counter equal its number of unread insights |
| HubStore.AddInsight | frontend/videco/src/store/hubStore.ts:203-209 | the insight goes first and nothing outside the insights changes; the counter grows by one exactly for an unread insight, so its distance from the true count is kept in any state |
| HubStore.AddInsightKeepsHubConsistent | frontend/videco/src/store/hubStore.ts:203-209 | adding keeps the counter consistent |
| HubStore.MarkInsightAsRead | frontend/videco/src/store/hubStore.ts:211-222 | the list keeps its length, ids and order; nothing outside the insights changes |
| HubStore.MarkInsightAsReadCases | frontend/videco/src/store/hubStore.ts:211-222 | a missing or already read target changes nothing; otherwise the insight becomes read and the counter drops by one |
| HubStore.MarkInsightAsReadKeepsHubConsistent | frontend/videco/src/store/hubStore.ts:211-222 | with unique ids marking read keeps the counter consistent and leaves the target read |
| HubStore.DismissInsight | frontend/videco/src/store/hubStore.ts:224-238 | the list keeps its length, ids and order; nothing outside the insights changes |
| HubStore.DismissInsightCases | frontend/videco/src/store/hubStore.ts:224-238 | a missing id changes nothing; otherwise the insights with the id become dismissed and the counter drops by one exactly when the first match was neither read nor dismissed |
| HubStore.DismissInsightIdempotent | frontend/videco/src/store/hubStore.ts:224-238 | dismissing twice equals dismissing once |
| HubStore.DismissInsightHubConsistency | frontend/videco/src/store/hubStore.ts:224-238 | from a consistent state the counter stays consistent exactly when the target is not an unread, undismissed insight |
| HubStore.MarkDismissedNotRead | frontend/videco/src/store/hubStore.ts:230-232 | dismissing commutes with selecting the unread insights |
| HubStore.LoadedCountsDiverge | frontend/videco/src/store/hubStore.ts:197-201 | the hub's count exceeds the insights store's count by the dismissed unread insights |
| GoalStore.AddGoal | frontend/videco/src/store/goalStore.ts:129-132 | the goal goes first; nothing else changes |
| GoalStore.MergeGoal | frontend/videco/src/store/goalStore.ts:138 | an update keeps the id, milestones, type, dates, related items and visibility, and stamps the update time |
| GoalStore.MergeGoalEmptyPatch | frontend/videco/src/store/goalStore.ts:138 | an empty patch only stamps the update time |
| GoalStore.UpdateGoal | frontend/videco/src/store/goalStore.ts:134-141 | only the goals with the id are merged; ids, order and the rest of the state are kept |
| GoalStore.UpdatedGoalIsFound | frontend/videco/src/store/goalStore.ts:134-141 | after an update, looking the id up finds the old goal merged with the patch, or nothing when it was absent |
| GoalStore.DeleteGoal | frontend/videco/src/store/goalStore.ts:143-147 | exactly the goals without the id remain, and a selection of that id is cleared |
| GoalStore.DeleteGoalIdempotent | frontend/videco/src/store/goalStore.ts:143-147 | deleting twice equals deleting once, and the id is never left selected |
| GoalStore.GetGoalById | frontend/videco/src/store/goalStore.ts:385-387 | nothing when no goal has the id, otherwise the first goal with it |
| GoalStore.AddedGoalIsFound | frontend/videco/src/store/goalStore.ts:129-147 | an added goal is found by its id, and deleting that id removes it |
| GoalStore.GetActiveGoals | frontend/videco/src/store/goalStore.ts:389-391 | exactly the goals in progress |
| GoalStore.GetCompletedGoals | frontend/videco/src/store/goalStore.ts:393-395 | exactly the completed goals |
| GoalStore.ActiveAndCompletedPartition | frontend/videco/src/store/goalStore.ts:389-395 | the active and completed lists are disjoint and together fit within the goals |
| GoalStore.AddMilestone | frontend/videco/src/store/goalStore.ts:150-157 | only the goals with the id get the milestone appended |
| GoalStore.UpdateMilestoneIn | frontend/videco/src/store/goalStore.ts:165-167 | the milestones with the id are merged; the others and the goal's other fields are kept |
| GoalStore.UpdateMilestone | frontend/videco/src/store/goalStore.ts:159-171 | only the goals with the id have their milestones updated |
| GoalStore.UpdateMilestoneEmptyPatch | frontend/videco/src/store/goalStore.ts:159-171 | an empty milestone patch changes nothing |
| GoalStore.UpdateAddedMilestone | frontend/videco/src/store/goalStore.ts:150-171 | updating a freshly added milestone equals adding the updated milestone |
| GoalStore.DeleteMilestoneFrom | frontend/videco/src/store/goalStore.ts:199 | exactly the milestones without the id remain |
| GoalStore.DeleteMilestone | frontend/videco/src/store/goalStore.ts:193-203 | only the goals with the id lose the milestone |
| GoalStore.DeleteUndoesAddMilestone | frontend/videco/src/store/goalStore.ts:150-203 | deleting a freshly added milestone restores the goal |
| GoalStore.RoundPercent | frontend/videco/src/store/goalStore.ts:185 | the percentage is the nearest integer to 100c/n, rounding halves up, so it lies in 0..100 for c ≤ n, is 0 for none and 100 for all |
| GoalStore.RoundPercentBounds | frontend/videco/src/store/goalStore.ts:185 | the integer half-up quotient meets those rounding bounds |
| GoalStore.RoundPercentMonotone | frontend/videco/src/store/goalStore.ts:185 | more completed milestones never give a lower percentage |
| GoalStore.MarkDone | frontend/videco/src/store/goalStore.ts:177-181 | the milestones with the id become completed at the time; the others are kept |
| GoalStore.MarkDoneCount | frontend/videco/src/store/goalStore.ts:177-184 | completing adds exactly the undone milestones with the id to the completed count |
| GoalStore.CompleteMilestoneIn | frontend/videco/src/store/goalStore.ts:176-187 | only the milestones and progress of the goal change |
| GoalStore.CompleteMilestone | frontend/videco/src/store/goalStore.ts:173-191 | only the goals with the id are rewritten |
| GoalStore.CompleteMilestoneMarks | frontend/videco/src/store/goalStore.ts:177-181 | the milestones with the id end completed at the given time |
| GoalStore.CompleteMilestoneProgress | frontend/videco/src/store/goalStore.ts:184-185 | the progress is NaN exactly when there are no milestones, otherwise the rounded percentage of completed ones, within 0..100 |
| GoalStore.CompleteMilestoneAllDone | frontend/videco/src/store/goalStore.ts:184-185 | completing the last open milestone gives 100 |
| GoalStore.CompleteMilestoneMonotone | frontend/videco/src/store/goalStore.ts:177-185 | the progress is never below the percentage completed before |
| GoalStore.FromDrafts | frontend/videco/src/store/goalStore.ts:319-323 | one milestone per draft, open, carrying the draft's title, description, target date and order, with pairwise distinct ids stamped with the creation stamp |
| GoalStore.StampIdsDistinct | frontend/videco/src/store/goalStore.ts:321 | different positions get different milestone ids |
| GoalStore.CreateGoalFromTemplate | frontend/videco/src/store/goalStore.ts:303-331 | it fails exactly when no template has the id; otherwise exactly one goal is prepended and nothing else changes |
| GoalStore.CreatedGoalShape | frontend/videco/src/store/goalStore.ts:307-328 | the new goal is not started, at 0%, private, tagged from the input or template, and has one open milestone per draft, all with distinct ids |
| GoalStore.NarrowByKindAndStatus | frontend/videco/src/store/goalStore.ts:340-346 | narrowing by type and status only drops goals |
| GoalStore.NarrowByPriorityAndTags | frontend/videco/src/store/goalStore.ts:348-356 | narrowing by priority and tags only drops goals |
| GoalStore.NarrowGoals | frontend/videco/src/store/goalStore.ts:337-356 | the narrowed list is a sub-multiset of the goals |
| GoalStore.NarrowByKindAndStatusIsFilter | frontend/videco/src/store/goalStore.ts:340-346 | the first two narrowings are one filter by type and status |
| GoalStore.NarrowGoalsIsMatches | frontend/videco/src/store/goalStore.ts:337-356 | the narrowed list is exactly the goals meeting every active criterion, in their original order |
| MainLayout.AppModeForPath | frontend/videco/src/layouts/MainLayout.tsx:26-32 | every path gets one of the four modes |
| MainLayout.PrefixesDisjoint | frontend/videco/src/layouts/MainLayout.tsx:28-30 | no path starts with two of the section prefixes |
| MainLayout.AppModeForPathSpec | frontend/videco/src/layouts/MainLayout.tsx:26-32 | each section mode is chosen exactly for paths with its prefix, and the default exactly for the rest |
| MainLayout.AppModeForPathExamples | frontend/videco/src/layouts/MainLayout.tsx:26-32 | nested routes keep their section's mode; "/watch" and "/" get the default |
| MainLayout.SyncAppMode | frontend/videco/src/layouts/MainLayout.tsx:36-38 | after a route change the store holds the route's mode and nothing else in the shell changes |
| MainLayout.SyncAppModeLaws | frontend/videco/src/layouts/MainLayout.tsx:36-38 | re-running the effect is a no-op, and the last route decides the mode |
| DefaultSidebar.RootActivatesEveryItem | frontend/videco/src/components/layout/DefaultSidebar.tsx:44 | on "/" every link is highlighted |
| DefaultSidebar.IsActiveOffRoot | frontend/videco/src/components/layout/DefaultSidebar.tsx:44 | away from "/" the home link is never highlighted, another link exactly when the route starts with its target, and the test agrees with the intended one |
| DefaultSidebar.SecondChar | frontend/videco/src/components/layout/DefaultSidebar.tsx:28-33 | a route under a non-root link shares that link's second character |
| DefaultSidebar.FixedActivatesOneItem | frontend/videco/src/components/layout/DefaultSidebar.tsx:28-44 | with the intended test no route highlights two links, and each link's own route highlights it |
| DefaultSidebar.ActiveItemExamples | frontend/videco/src/components/layout/DefaultSidebar.tsx:28-44 | a trip route highlights only the trip planner link; with the intended test "/" highlights only home |
| MainHeader.AnyKeywordIn | frontend/videco/src/components/layout/MainHeader.tsx:22 | true exactly when the query contains some keyword |
| MainHeader.HandleSearchChange | frontend/videco/src/components/layout/MainHeader.tsx:17-28 | a magic query opens the flow setup modal, empties the term and changes nothing else; any other query becomes the term and leaves the shell alone |
| MainHeader.IncludedCharsOccur | frontend/videco/src/components/layout/MainHeader.tsx:22 | every character of a contained keyword occurs in the query |
| MainHeader.MagicExamples | frontend/videco/src/components/layout/MainHeader.tsx:11-22 | "bgm" anywhere is magic; matching is case-sensitive, so "BGM" is not, and neither is the empty query |
| MainHeader.HandleSearchChangeLaws | frontend/videco/src/components/layout/MainHeader.tsx:17-28 | handling the same query twice equals once, and the modal stays coherent |

## Left out

- **Services.** The `fetch*`/`load*` actions, network calls, `isLoading`/`error` and their setters are I/O outside the reducers.
- **Logging.** `addCard` also writes the new card to the console; that output is not modelled.
- **Clock and ids.** The values of `new Date().toISOString()` and `Date.now()` are parameters. The model does not make two calls in one action differ.
- **Plain setters.** The model omits plain field setters that only replace one field:
  - hub store: `setDashboard`, `setVideoStats`, `setKnowledgeStats`, `setHabits`, `setTimeline`, `setTimelineFilter`;
  - goal store: `setGoals`, `selectGoal`, `setTemplates`, `setSortBy`, and the goal filter's `setFilter`/`clearFilter`.
- **Insight settings.** The insights store's `updateSettings` and its settings object are not modelled.
- **Date range.** The insights filter's `dateRange` criterion needs date parsing, so it is not modelled.
- **Goal search.** The goal filter's `searchQuery` narrowing needs `toLowerCase`, which has no counterpart without Unicode case tables. It is not modelled.
- **Goal sort.** `getFilteredGoals` sorts the narrowed list by a field chosen at run time, and the model omits that sort. `GoalStore.NarrowGoals` stops before it.
  - The source sorts in place. With no criterion active it therefore reorders the store's own array.
- **Metrics and extra fields.** These are not modelled:
  - goal metrics, relatedNotes on updates, and widget `config` objects;
  - the category-specific insight subtypes.
  - Widget config is merged shallowly as one opaque field.
- **Aliasing.** `moveLocation` mutates arrays it shares with the previous state: `splice` on the containers, and assignment to `days[dayIndex].locations`. The model returns a fresh state and does not model that mutation of the old one.
- TripStore.MoveLocation: requires that the first `splice` removes an element (`RemovesItem`). With an empty source list JavaScript would insert `undefined`, which the typed model cannot represent. `ItineraryPlannerPanel.DropCallIsValidMove` shows the panel meets the precondition whenever the day ids are distinct and none is "saved".
- **Duplicate day ids.** With two days sharing an id, or a day named "saved", `findContainerId` and the store's `days.find` can pick a list that does not hold the dragged item. The panel then passes index -1, and the store's `splice(-1, 1)` takes out the list's last element, or on an empty list inserts `undefined`. The model's panel lemmas assume distinct day ids for that reason.
- **arrayMove.** `arrayMove` comes from `@dnd-kit/sortable`, which is not part of this model. `TripStore.ArrayMove` follows its published code: a `splice` out at `from`, then a `splice` in at `to`, where a negative `to` has already been resolved against the length of the whole list.
- **Rounding.** Floating point is not modelled. `Math.round(c / n * 100)` is modelled as exact half-up rounding of the rational 100c/n, so binary rounding of the intermediate quotient is not modelled.
- **Modal content.** `openModal` takes any React node, null included. The model's `OpenModal` takes a content value, so a modal opened with null content is not modelled. Likewise `setRightPanelContent` takes any node; `setRightPanelContent(null)` opens the panel with no content, and the model's `SetRightPanelContent` cannot express that call.
- **Undefined in patches.** Passing `undefined` explicitly for a required field in a spread patch is not modelled. Optional fields can be set to "absent" through a nested option.
- **Rendering.** React rendering, `renderContextualPanel`, the dnd-kit sensors and the drag overlay are not modelled.
- **Trip id.** The panel's `tripId` guard is not modelled: the model's panel always has a trip.
- **Unused content.** `getAvailableModules` returns mock data, and the mock records seeding the stores are not modelled.
- **PlaylistStore.AddAllFromSeed** states only that a run of additions keeps ids distinct and ends containing every added id. It does not state which modules are kept and in what order; `PlaylistStore.AddAllExtends` bounds that.

## Findings

| source | as written | input that shows it | evidently intended | confidence | as-written member | corrected member |
|---|---|---|---|---|---|---|
| frontend/videco/src/store/insightsStore.ts:90-101 | `markAsRead` decrements `unreadCount` for any unread target, even though dismissed insights are not counted as unread (lines 79, 85, 108, 126) | `setInsights([x])` with x unread and dismissed, then `markAsRead(x.id)`: the count goes from 0 to -1 | decrement only when the target was counted, that is, not dismissed | high (not executed) | InsightsStore.MarkAsReadDismissedGoesNegative | InsightsStore.MarkAsReadFixedKeepsConsistent |
| frontend/videco/src/components/layout/DefaultSidebar.tsx:44 | `pathname.startsWith(item.to) && item.to !== '/' \|\| pathname === '/'` groups as `(… && …) \|\| pathname === '/'` | pathname "/": all four links are highlighted | `item.to === '/' ? pathname === '/' : pathname.startsWith(item.to)` | medium (not executed) | DefaultSidebar.RootActivatesEveryItem | DefaultSidebar.FixedActivatesOneItem |
