/** The itinerary panel's drop handling: from the dragged location id and the
    drop target id it works out which containers and indices to hand to the
    trip store's move engine, or that no move should happen. */
module ItineraryPlannerPanel {
  import opened Wrappers
  import opened Seqs
  import opened TripStore

  /** `containers`: "saved" followed by the ids of the days, in order. The
      ids listed are exactly "saved" and the day ids, and each of them names
      a list of the trip. */
  function ContainerIds(trip: Trip): (r: seq<string>)
    ensures |r| == |trip.days| + 1 && r[0] == SavedId
    ensures forall c :: c in r <==> c == SavedId || exists i :: 0 <= i < |trip.days| && trip.days[i].id == c
    ensures forall c :: c in r ==> Container(trip, c).Some?
  {
    var ids := seq(|trip.days|, i requires 0 <= i < |trip.days| => trip.days[i].id);
    ListedIdsAreContainers(trip, ids);
    [SavedId] + ids
  }

  /** "saved" in front of the day ids, position by position, lists exactly
      "saved" and the day ids. */
  lemma ListedIdsAreContainers(trip: Trip, ids: seq<string>)
    requires |ids| == |trip.days| && forall i :: 0 <= i < |ids| ==> ids[i] == trip.days[i].id
    ensures forall c :: c in [SavedId] + ids <==> c == SavedId || exists i :: 0 <= i < |trip.days| && trip.days[i].id == c
  {
    var r := [SavedId] + ids;
    forall c | c in r
      ensures c == SavedId || exists i :: 0 <= i < |trip.days| && trip.days[i].id == c
    {
      var k :| 0 <= k < |r| && r[k] == c;
      if k > 0 {
        assert trip.days[k - 1].id == c;
      }
    }
    forall i | 0 <= i < |trip.days|
      ensures trip.days[i].id in r
    {
      assert r[i + 1] == trip.days[i].id;
    }
  }

  /** True when some location of `locs` has this id. */
  predicate Holds(locs: seq<Location>, id: string) {
    exists i :: 0 <= i < |locs| && locs[i].id == id
  }

  function LocIdIs(id: string): Location -> bool {
    (l: Location) => l.id == id
  }

  function DayHolds(id: string): DayPlan -> bool {
    (d: DayPlan) => Holds(d.locations, id)
  }

  /** `findContainerId`: "saved" when the saved list holds the id, otherwise
      the id of the first day holding it, otherwise nothing. */
  function FindContainerId(trip: Trip, id: string): (r: Option<string>)
    ensures r.None? <==>
      !Holds(trip.savedLocations, id) && forall j :: 0 <= j < |trip.days| ==> !Holds(trip.days[j].locations, id)
    ensures Holds(trip.savedLocations, id) ==> r == Some(SavedId)
    ensures !Holds(trip.savedLocations, id) && r.Some? ==>
      exists j :: 0 <= j < |trip.days| && r.value == trip.days[j].id && Holds(trip.days[j].locations, id)
        && forall j' :: 0 <= j' < j ==> !Holds(trip.days[j'].locations, id)
  {
    if Holds(trip.savedLocations, id) then Some(SavedId)
    else
      var j := FindIndex(trip.days, DayHolds(id));
      if j < 0 then None else Some(trip.days[j].id)
  }

  /** A container id found for an item always names a list of the trip. */
  lemma FindContainerIdResolves(trip: Trip, id: string)
    requires FindContainerId(trip, id).Some?
    ensures Container(trip, FindContainerId(trip, id).value).Some?
  {
  }

  /** `overContainerId`: the drop target itself when it is a container id,
      otherwise the container holding the target item. */
  function OverContainerId(trip: Trip, overId: string): (r: Option<string>)
    ensures overId in ContainerIds(trip) ==> r == Some(overId) && Container(trip, overId).Some?
    ensures overId !in ContainerIds(trip) ==> r == FindContainerId(trip, overId)
  {
    if overId in ContainerIds(trip) then Some(overId)
    else FindContainerId(trip, overId)
  }

  /** JavaScript truthiness of an optional string: present and non-empty. */
  predicate Truthy(c: Option<string>) {
    c.Some? && c.value != ""
  }

  /** The arguments `handleDragEnd` passes to `moveLocation`. */
  datatype MoveCall = MoveCall(activeContainerId: string, overContainerId: string, activeIndex: int, overIndex: int)

  /** What a drop does: the move it requests, if any, and the dragged id
      the panel keeps afterwards. */
  datatype DropOutcome = DropOutcome(call: Option<MoveCall>, activeId: Option<string>)

  /** `handleDragStart`: remember the dragged id. */
  function HandleDragStart(draggedId: string): (r: Option<string>)
    ensures r == Some(draggedId)
  {
    Some(draggedId)
  }

  /** A drag that starts on an item and ends anywhere clears the remembered
      id, and any move it requests starts from the container holding that
      item. */
  lemma DragStartThenDrop(trip: Trip, id: string, over: Option<string>)
    ensures var r := HandleDragEnd(trip, HandleDragStart(id), id, over);
      && r.activeId == None
      && (r.call.Some? ==>
            FindContainerId(trip, id).Some? && r.call.value.activeContainerId == FindContainerId(trip, id).value)
  {
    var dragged := HandleDragStart(id);
    DragEndClearsActiveId(trip, dragged, id, over);
    if HandleDragEnd(trip, dragged, id, over).call.Some? {
      DropCallShape(trip, dragged, id, over);
    }
  }

  /** The over index of a drop: the target item's position in the over list,
      or that list's length when the target is not an item of it. */
  function OverIndex(overList: seq<Location>, overId: string): (r: int)
    ensures 0 <= r <= |overList|
    ensures r < |overList| <==> Holds(overList, overId)
    ensures r < |overList| ==> overList[r].id == overId && forall i :: 0 <= i < r ==> overList[i].id != overId
  {
    var k := FindIndex(overList, LocIdIs(overId));
    if k < 0 then |overList| else k
  }

  /** `handleDragEnd` for a panel showing `trip`, with `dragged` the id it
      currently remembers, `activeId` the dragged item and `over` the drop target. */
  function HandleDragEnd(trip: Trip, dragged: Option<string>, activeId: string, over: Option<string>): (r: DropOutcome)
    ensures over.None? ==> r == DropOutcome(None, None)
  {
    if over.None? then DropOutcome(None, None)
    else
      var overId := over.value;
      var ac := FindContainerId(trip, activeId);
      var oc := OverContainerId(trip, overId);
      if !Truthy(ac) || !Truthy(oc) then DropOutcome(None, None)
      else
        var activeList := Container(trip, ac.value);
        var overList := Container(trip, oc.value);
        if activeList.None? || overList.None? then DropOutcome(None, dragged)
        else
          var ai := FindIndex(activeList.value, LocIdIs(activeId));
          var oi := OverIndex(overList.value, overId);
          if ac.value != oc.value || ai != oi then DropOutcome(Some(MoveCall(ac.value, oc.value, ai, oi)), None)
          else DropOutcome(None, None)
  }

  /** A container id found for a drop target always names a list of the trip. */
  lemma OverContainerIdResolves(trip: Trip, overId: string)
    ensures OverContainerId(trip, overId).Some? ==> Container(trip, OverContainerId(trip, overId).value).Some?
  {
    if overId !in ContainerIds(trip) && FindContainerId(trip, overId).Some? {
      FindContainerIdResolves(trip, overId);
    }
  }

  /** Every drop ends the drag: the early return that would keep the dragged
      id cannot be reached, because resolved container ids always name lists. */
  lemma DragEndClearsActiveId(trip: Trip, dragged: Option<string>, activeId: string, over: Option<string>)
    ensures HandleDragEnd(trip, dragged, activeId, over).activeId == None
  {
    if over.Some? {
      var ac := FindContainerId(trip, activeId);
      var oc := OverContainerId(trip, over.value);
      if Truthy(ac) && Truthy(oc) {
        FindContainerIdResolves(trip, activeId);
        OverContainerIdResolves(trip, over.value);
        assert Container(trip, ac.value).Some? && Container(trip, oc.value).Some?;
      }
    }
  }

  /** A drop whose dragged item or target resolves to no container (or to
      the falsy id "") requests no move. */
  lemma DropUnresolvedIsNoop(trip: Trip, dragged: Option<string>, activeId: string, overId: string)
    requires !Truthy(FindContainerId(trip, activeId)) || !Truthy(OverContainerId(trip, overId))
    ensures HandleDragEnd(trip, dragged, activeId, Some(overId)) == DropOutcome(None, None)
  {
  }

  /** A resolved drop requests a move across containers always, and within
      one container only between different indices; the indices are the
      dragged item's position and the target's position (the over list's
      length when the target is the container itself). */
  lemma DropResolvedCall(trip: Trip, dragged: Option<string>, activeId: string, overId: string)
    requires Truthy(FindContainerId(trip, activeId)) && Truthy(OverContainerId(trip, overId))
    ensures var r := HandleDragEnd(trip, dragged, activeId, Some(overId));
      var ac := FindContainerId(trip, activeId).value;
      var oc := OverContainerId(trip, overId).value;
      && Container(trip, ac).Some? && Container(trip, oc).Some?
      && var ai := FindIndex(Container(trip, ac).value, LocIdIs(activeId));
         var oi := OverIndex(Container(trip, oc).value, overId);
         && (r.call.Some? <==> ac != oc || ai != oi)
         && (r.call.Some? ==> r.call.value == MoveCall(ac, oc, ai, oi))
  {
    var ac := FindContainerId(trip, activeId).value;
    var oc := OverContainerId(trip, overId).value;
    FindContainerIdResolves(trip, activeId);
    if overId !in ContainerIds(trip) {
      FindContainerIdResolves(trip, overId);
    }
    var ai := FindIndex(Container(trip, ac).value, LocIdIs(activeId));
    var oi := OverIndex(Container(trip, oc).value, overId);
    assert HandleDragEnd(trip, dragged, activeId, Some(overId))
      == if ac != oc || ai != oi then DropOutcome(Some(MoveCall(ac, oc, ai, oi)), None)
         else DropOutcome(None, None);
  }

  /** A requested move names the containers of the dragged item and of the
      target, and the dragged item's position in its list. */
  lemma DropCallShape(trip: Trip, dragged: Option<string>, activeId: string, over: Option<string>)
    requires HandleDragEnd(trip, dragged, activeId, over).call.Some?
    ensures over.Some? && Truthy(FindContainerId(trip, activeId)) && Truthy(OverContainerId(trip, over.value))
    ensures var ac := FindContainerId(trip, activeId).value;
      var c := HandleDragEnd(trip, dragged, activeId, over).call.value;
      && c.activeContainerId == ac
      && c.overContainerId == OverContainerId(trip, over.value).value
      && Container(trip, ac).Some?
      && c.activeIndex == FindIndex(Container(trip, ac).value, LocIdIs(activeId))
  {
  }

  /** A trip whose day ids are distinct and differ from "saved". */
  predicate DistinctContainers(trip: Trip) {
    && (forall i :: 0 <= i < |trip.days| ==> trip.days[i].id != SavedId)
    && (forall i, j :: 0 <= i < j < |trip.days| ==> trip.days[i].id != trip.days[j].id)
  }

  /** With distinct container ids, every move a drop requests takes out a real
      element: the dragged item is found in the list its container id names,
      so the call meets the move engine's precondition. */
  lemma DropCallIsValidMove(st: TripState, tripId: string, trip: Trip, dragged: Option<string>,
                            activeId: string, over: Option<string>)
    requires FindTripById(st, tripId) == Some(trip)
    requires DistinctContainers(trip)
    requires HandleDragEnd(trip, dragged, activeId, over).call.Some?
    ensures var c := HandleDragEnd(trip, dragged, activeId, over).call.value;
      && 0 <= c.activeIndex < |Container(trip, c.activeContainerId).value|
      && RemovesItem(st, tripId, c.activeContainerId, c.overContainerId, c.activeIndex)
  {
    DropCallShape(trip, dragged, activeId, over);
    var c := HandleDragEnd(trip, dragged, activeId, over).call.value;
    FoundContainerHoldsItem(trip, activeId);
    var activeList := Container(trip, c.activeContainerId).value;
    assert 0 <= c.activeIndex < |activeList| by {
      var k :| 0 <= k < |activeList| && activeList[k].id == activeId;
      assert LocIdIs(activeId)(activeList[k]);
    }
    assert TripIndex(st, tripId) >= 0 && st.trips[TripIndex(st, tripId)] == trip;
  }

  /** With distinct container ids, the list a found container id names holds
      the item it was found for. */
  lemma FoundContainerHoldsItem(trip: Trip, id: string)
    requires DistinctContainers(trip)
    requires FindContainerId(trip, id).Some?
    ensures Container(trip, FindContainerId(trip, id).value).Some?
    ensures Holds(Container(trip, FindContainerId(trip, id).value).value, id)
  {
    var ac := FindContainerId(trip, id).value;
    FindContainerIdResolves(trip, id);
    if ac != SavedId {
      var j :| 0 <= j < |trip.days| && ac == trip.days[j].id && Holds(trip.days[j].locations, id);
      assert DayIndex(trip, ac) == j;
    }
  }

  /** Scenario: saved = [A, B, C] and an empty "day-1" ... */
  const LocA := Location("A", "a", "v")
  const LocB := Location("B", "b", "v")
  const LocC := Location("C", "c", "v")
  const EmptyDayTrip := Trip("trip1", "t", "7", 3, "img", [LocA, LocB, LocC], [DayPlan("day-1", "Day 1", [])])

  /** ... dragging B onto the "day-1" container requests a cross move of
      index 1 to index 0 ... */
  lemma DropOntoEmptyDayCall()
    ensures HandleDragEnd(EmptyDayTrip, Some("B"), "B", Some("day-1"))
      == DropOutcome(Some(MoveCall(SavedId, "day-1", 1, 0)), None)
  {
    var trip := EmptyDayTrip;
    assert Holds(trip.savedLocations, "B") by { assert trip.savedLocations[1].id == "B"; }
    assert "day-1" in ContainerIds(trip) by { assert ContainerIds(trip)[1] == "day-1"; }
    assert FindIndex(trip.savedLocations, LocIdIs("B")) == 1 by {
      assert trip.savedLocations[1..][0].id == "B";
    }
    assert FindContainerId(trip, "B") == Some(SavedId);
    assert OverContainerId(trip, "day-1") == Some("day-1");
    assert Container(trip, "day-1") == Some([]) by {
      assert DayIndex(trip, "day-1") == 0;
    }
    assert OverIndex([], "day-1") == 0;
  }

  /** The two splices of the scenario's cross move, one lemma each. */
  lemma EmptyDayRemove()
    ensures Container(EmptyDayTrip, SavedId) == Some([LocA, LocB, LocC])
    ensures RemoveAt([LocA, LocB, LocC], SpliceStart(3, 1)) == [LocA, LocC]
    ensures WithContainer(EmptyDayTrip, SavedId, [LocA, LocC]) == EmptyDayTrip.(savedLocations := [LocA, LocC])
  {
    assert SpliceStart(3, 1) == 1;
  }

  lemma EmptyDayInsert()
    ensures var trip1 := EmptyDayTrip.(savedLocations := [LocA, LocC]);
      && Container(EmptyDayTrip, "day-1") == Some([])
      && Container(trip1, "day-1") == Some([])
      && WithContainer(trip1, "day-1", InsertAt([], SpliceStart(0, 0), LocB))
         == Trip("trip1", "t", "7", 3, "img", [LocA, LocC], [DayPlan("day-1", "Day 1", [LocB])])
  {
    var trip1 := EmptyDayTrip.(savedLocations := [LocA, LocC]);
    assert DayIndex(EmptyDayTrip, "day-1") == 0;
    assert DayIndex(trip1, "day-1") == 0;
    assert SpliceStart(0, 0) == 0;
    assert InsertAt([], 0, LocB) == [LocB];
  }

  /** The cross move of the scenario, on the trip alone. */
  lemma EmptyDayMoveAcross()
    ensures Container(EmptyDayTrip, SavedId).Some? && Container(EmptyDayTrip, "day-1").Some?
    ensures SpliceStart(|Container(EmptyDayTrip, SavedId).value|, 1) < |Container(EmptyDayTrip, SavedId).value|
    ensures MoveAcross(EmptyDayTrip, SavedId, "day-1", 1, 0)
      == Trip("trip1", "t", "7", 3, "img", [LocA, LocC], [DayPlan("day-1", "Day 1", [LocB])])
  {
    EmptyDayRemove();
    EmptyDayInsert();
    assert [LocA, LocB, LocC][1] == LocB;
  }

  /** The scenario's trip is the first of a state holding only it. */
  lemma EmptyDayTripIndex()
    ensures TripIndex(TripState([EmptyDayTrip]), "trip1") == 0
  {
    assert TripIdIs("trip1")(EmptyDayTrip);
  }

  /** ... and that move leaves saved = [A, C] and day-1 = [B]. */
  lemma DropOntoEmptyDayMove()
    ensures MoveLocation(TripState([EmptyDayTrip]), "trip1", SavedId, "day-1", 1, 0).trips
      == [Trip("trip1", "t", "7", 3, "img", [LocA, LocC], [DayPlan("day-1", "Day 1", [LocB])])]
  {
    EmptyDayTripIndex();
    EmptyDayMoveAcross();
  }
}
