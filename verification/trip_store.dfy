/** The trip store: trips made of a "saved" list of locations and a list of
    day plans, and the move engine that reorders a location inside one list
    or carries it from one list to another. */
module TripStore {
  import opened Wrappers
  import opened Seqs

  datatype Location = Location(id: string, name: string, videoSource: string)

  datatype DayPlan = DayPlan(id: string, title: string, locations: seq<Location>)

  datatype Trip = Trip(
    id: string,
    title: string,
    duration: string,
    locationsCount: int,
    coverImage: string,
    savedLocations: seq<Location>,
    days: seq<DayPlan>)

  datatype TripState = TripState(trips: seq<Trip>)

  /** The container id of a trip's saved list; every other id names a day. */
  const SavedId: string := "saved"

  function TripIdIs(tripId: string): Trip -> bool {
    (t: Trip) => t.id == tripId
  }

  function DayIdIs(dayId: string): DayPlan -> bool {
    (d: DayPlan) => d.id == dayId
  }

  /** Index of the trip with this id, -1 when there is none. */
  function TripIndex(st: TripState, tripId: string): int {
    FindIndex(st.trips, TripIdIs(tripId))
  }

  /** `findTripById`: the first trip whose id matches. */
  function FindTripById(st: TripState, tripId: string): (r: Option<Trip>)
    ensures r.None? <==> forall i :: 0 <= i < |st.trips| ==> st.trips[i].id != tripId
    ensures r.Some? ==>
      exists i :: 0 <= i < |st.trips| && st.trips[i] == r.value && r.value.id == tripId
        && forall j :: 0 <= j < i ==> st.trips[j].id != tripId
  {
    var k := TripIndex(st, tripId);
    if k < 0 then None else Some(st.trips[k])
  }

  /** Index of the first day with this id, -1 when there is none. */
  function DayIndex(trip: Trip, dayId: string): int {
    FindIndex(trip.days, DayIdIs(dayId))
  }

  /** The list a container id names inside a trip: the saved list for
      "saved", otherwise the locations of the first day with that id. */
  function Container(trip: Trip, cid: string): (r: Option<seq<Location>>)
    ensures cid == SavedId ==> r == Some(trip.savedLocations)
    ensures cid != SavedId ==>
      (r.Some? <==> exists i :: 0 <= i < |trip.days| && trip.days[i].id == cid)
    ensures cid != SavedId && r.Some? ==>
      exists i :: 0 <= i < |trip.days| && trip.days[i].id == cid && r.value == trip.days[i].locations &&
        forall j :: 0 <= j < i ==> trip.days[j].id != cid
  {
    if cid == SavedId then Some(trip.savedLocations)
    else
      var k := DayIndex(trip, cid);
      if k < 0 then None else Some(trip.days[k].locations)
  }

  /** Two trips with the same day ids resolve container ids the same way. */
  lemma {:induction false} SameDayIdsSameDayIndex(days: seq<DayPlan>, days': seq<DayPlan>, cid: string)
    requires |days| == |days'|
    requires forall i :: 0 <= i < |days| ==> days[i].id == days'[i].id
    ensures FindIndex(days, DayIdIs(cid)) == FindIndex(days', DayIdIs(cid))
    decreases |days|
  {
    if |days| > 0 && days[0].id != cid {
      SameDayIdsSameDayIndex(days[1..], days'[1..], cid);
    }
  }

  /** True when `trip` and `trip'` differ at most in the contents of their
      lists: same metadata, same days with the same ids and titles. */
  predicate SameShape(trip: Trip, trip': Trip) {
    && trip'.id == trip.id
    && trip'.title == trip.title
    && trip'.duration == trip.duration
    && trip'.locationsCount == trip.locationsCount
    && trip'.coverImage == trip.coverImage
    && |trip'.days| == |trip.days|
    && forall i :: 0 <= i < |trip.days| ==>
         trip'.days[i].id == trip.days[i].id && trip'.days[i].title == trip.days[i].title
  }

  /** Replacing one day's locations resolves every container id as before. */
  lemma UpdatedDayKeepsIndices(trip: Trip, k: int, locs: seq<Location>)
    requires 0 <= k < |trip.days|
    ensures forall c :: DayIndex(trip.(days := trip.days[k := trip.days[k].(locations := locs)]), c) == DayIndex(trip, c)
  {
    var r := trip.(days := trip.days[k := trip.days[k].(locations := locs)]);
    forall c ensures DayIndex(r, c) == DayIndex(trip, c) {
      SameDayIdsSameDayIndex(trip.days, r.days, c);
    }
  }

  /** Replacing the locations of the day a container id resolves to replaces
      that container's list and no other. */
  lemma UpdatedDayContainers(trip: Trip, cid: string, locs: seq<Location>)
    requires cid != SavedId && 0 <= DayIndex(trip, cid)
    ensures var k := DayIndex(trip, cid);
      var r := trip.(days := trip.days[k := trip.days[k].(locations := locs)]);
      && SameShape(trip, r)
      && Container(r, cid) == Some(locs)
      && forall c :: c != cid && Container(trip, c).Some? ==> Container(r, c) == Container(trip, c)
  {
    var k := DayIndex(trip, cid);
    var r := trip.(days := trip.days[k := trip.days[k].(locations := locs)]);
    UpdatedDayKeepsIndices(trip, k, locs);
    forall c | c != cid && Container(trip, c).Some?
      ensures Container(r, c) == Container(trip, c)
    {
      if c != SavedId {
        var j := DayIndex(trip, c);
        assert trip.days[j].id == c && trip.days[k].id == cid;
        assert r.days[j] == trip.days[j];
      }
    }
  }

  /** Replaces the list a resolved container id names; nothing else changes. */
  function WithContainer(trip: Trip, cid: string, locs: seq<Location>): (r: Trip)
    requires Container(trip, cid).Some?
    ensures SameShape(trip, r)
    ensures Container(r, cid) == Some(locs)
    ensures forall c :: c != cid && Container(trip, c).Some? ==> Container(r, c) == Container(trip, c)
  {
    if cid == SavedId then
      var r := trip.(savedLocations := locs);
      assert forall c :: DayIndex(r, c) == DayIndex(trip, c);
      r
    else
      var k := DayIndex(trip, cid);
      UpdatedDayContainers(trip, cid, locs);
      trip.(days := trip.days[k := trip.days[k].(locations := locs)])
  }

  /** The insertion index `arrayMove` hands to `splice`: a negative `to`
      counts back from the end of the list before anything is taken out. */
  function MoveTarget(n: int, to: int): int {
    if to < 0 then n + to else to
  }

  /** `arrayMove(s, from, to)` of dnd-kit: take the element out at `from`,
      then put it back at `MoveTarget(|s|, to)` in the shortened list, both
      positions normalised the way `splice` normalises them. */
  function ArrayMove<T>(s: seq<T>, from: int, to: int): (r: seq<T>)
    requires SpliceStart(|s|, from) < |s|
    ensures |r| == |s|
    ensures multiset(r) == multiset(s)
  {
    var i := SpliceStart(|s|, from);
    var rest := RemoveAt(s, i);
    InsertAt(rest, SpliceStart(|rest|, MoveTarget(|s|, to)), s[i])
  }

  /** Where the moved element ends up, and that every other element keeps its
      relative order: taking it out again from both lists gives the same list. */
  lemma ArrayMovePlacement<T>(s: seq<T>, from: int, to: int)
    requires SpliceStart(|s|, from) < |s|
    ensures var j := SpliceStart(|s| - 1, MoveTarget(|s|, to));
      && j < |s|
      && ArrayMove(s, from, to)[j] == s[SpliceStart(|s|, from)]
      && RemoveAt(ArrayMove(s, from, to), j) == RemoveAt(s, SpliceStart(|s|, from))
    ensures 0 <= to ==>
      ArrayMove(s, from, to)[if to < |s| - 1 then to else |s| - 1] == s[SpliceStart(|s|, from)]
  {
    var i := SpliceStart(|s|, from);
    var rest := RemoveAt(s, i);
    var j := SpliceStart(|rest|, MoveTarget(|s|, to));
    var r := InsertAt(rest, j, s[i]);
    assert RemoveAt(r, j) == rest;
  }

  /** A negative target counts from the end of the whole list: moving the
      first of three elements to -1 puts it last. */
  lemma ArrayMoveNegativeTarget()
    ensures ArrayMove([1, 2, 3], 0, -1) == [2, 3, 1]
  {
    assert SpliceStart(3, 0) == 0;
    assert RemoveAt([1, 2, 3], 0) == [2, 3];
    assert SpliceStart(2, MoveTarget(3, -1)) == 2;
    assert InsertAt([2, 3], 2, 1) == [2, 3, 1];
  }

  /** Moving an element onto its own index changes nothing. */
  lemma ArrayMoveSameIndex<T>(s: seq<T>, i: int)
    requires 0 <= i < |s|
    ensures ArrayMove(s, i, i) == s
  {
    InsertRemoved(s, i);
  }

  /** The same-container branch of `moveLocation`. */
  function MoveWithin(trip: Trip, cid: string, activeIndex: int, overIndex: int): Trip
    requires Container(trip, cid).Some?
    requires SpliceStart(|Container(trip, cid).value|, activeIndex) < |Container(trip, cid).value|
  {
    WithContainer(trip, cid, ArrayMove(Container(trip, cid).value, activeIndex, overIndex))
  }

  /** The cross-container branch of `moveLocation`: `splice` out of the active
      list, `splice` into the over list (at its end when `overIndex` is past it). */
  function MoveAcross(trip: Trip, activeCid: string, overCid: string, activeIndex: int, overIndex: int): Trip
    requires activeCid != overCid
    requires Container(trip, activeCid).Some? && Container(trip, overCid).Some?
    requires SpliceStart(|Container(trip, activeCid).value|, activeIndex) < |Container(trip, activeCid).value|
  {
    var src := Container(trip, activeCid).value;
    var dst := Container(trip, overCid).value;
    var i := SpliceStart(|src|, activeIndex);
    var trip1 := WithContainer(trip, activeCid, RemoveAt(src, i));
    WithContainer(trip1, overCid, InsertAt(dst, SpliceStart(|dst|, overIndex), src[i]))
  }

  /** What `moveLocation` needs of its caller: when the trip and both
      containers resolve, the first `splice` must take an element out of the
      active list (otherwise JavaScript would insert `undefined`). */
  predicate RemovesItem(st: TripState, tripId: string, activeCid: string, overCid: string, activeIndex: int) {
    var k := TripIndex(st, tripId);
    0 <= k ==>
      var trip := st.trips[k];
      Container(trip, activeCid).Some? && Container(trip, overCid).Some? ==>
        SpliceStart(|Container(trip, activeCid).value|, activeIndex) < |Container(trip, activeCid).value|
  }

  /** The trip `moveLocation` leaves in place of `trip`. */
  function MovedTrip(trip: Trip, activeCid: string, overCid: string, activeIndex: int, overIndex: int): Trip
    requires Container(trip, activeCid).Some? && Container(trip, overCid).Some?
    requires SpliceStart(|Container(trip, activeCid).value|, activeIndex) < |Container(trip, activeCid).value|
  {
    if activeCid == overCid then MoveWithin(trip, activeCid, activeIndex, overIndex)
    else MoveAcross(trip, activeCid, overCid, activeIndex, overIndex)
  }

  /** `moveLocation(tripId, activeContainerId, overContainerId, activeIndex, overIndex)`. */
  function MoveLocation(st: TripState, tripId: string, activeCid: string, overCid: string,
                        activeIndex: int, overIndex: int): (r: TripState)
    requires RemovesItem(st, tripId, activeCid, overCid, activeIndex)
    ensures |r.trips| == |st.trips|
    ensures (forall i :: 0 <= i < |st.trips| ==> st.trips[i].id != tripId) ==> r == st
    ensures forall i :: 0 <= i < |st.trips| && i != TripIndex(st, tripId) ==> r.trips[i] == st.trips[i]
  {
    var k := TripIndex(st, tripId);
    if k < 0 then st
    else
      var trip := st.trips[k];
      if Container(trip, activeCid).None? || Container(trip, overCid).None? then st
      else TripState(st.trips[k := MovedTrip(trip, activeCid, overCid, activeIndex, overIndex)])
  }

  /** A container id that is neither "saved" nor a day of the trip makes the
      move a no-op. */
  lemma MoveLocationUnresolvedIsNoop(st: TripState, tripId: string, activeCid: string, overCid: string,
                                     activeIndex: int, overIndex: int, trip: Trip)
    requires FindTripById(st, tripId) == Some(trip)
    requires Container(trip, activeCid).None? || Container(trip, overCid).None?
    ensures MoveLocation(st, tripId, activeCid, overCid, activeIndex, overIndex) == st
  {
  }

  /** Every location of a list of day plans, counted with multiplicity. */
  function DaysBag(days: seq<DayPlan>): multiset<Location>
    decreases |days|
  {
    if |days| == 0 then multiset{} else multiset(days[0].locations) + DaysBag(days[1..])
  }

  /** Every location of a trip, saved or scheduled, counted with multiplicity. */
  function TripBag(trip: Trip): multiset<Location> {
    multiset(trip.savedLocations) + DaysBag(trip.days)
  }

  lemma {:induction false} DaysBagUpdate(days: seq<DayPlan>, k: nat, d: DayPlan)
    requires k < |days|
    ensures DaysBag(days[k := d]) + multiset(days[k].locations) == DaysBag(days) + multiset(d.locations)
    decreases |days|
  {
    var days' := days[k := d];
    var A := multiset(days[0].locations);
    var X := multiset(days[k].locations);
    var Y := multiset(d.locations);
    var B := DaysBag(days[1..]);
    var B' := DaysBag(days'[1..]);
    if k > 0 {
      assert days'[1..] == days[1..][k - 1 := d];
      DaysBagUpdate(days[1..], k - 1, d);
      assert days[1..][k - 1] == days[k];
      assert B' + X == B + Y;
      calc {
        DaysBag(days') + X;
        A + B' + X;
        { BagAssoc(A, B', X); }
        A + (B' + X);
        A + (B + Y);
        { BagAssoc(A, B, Y); }
        DaysBag(days) + Y;
      }
    } else {
      assert days'[1..] == days[1..];
      calc {
        DaysBag(days') + X;
        Y + B + A;
        { BagAssoc(Y, B, A); BagAssoc(B, A, Y); BagAssoc(Y, B + A, Y); }
        A + B + Y;
      }
    }
  }

  /** Replacing a list changes the trip's bag by exactly the difference of the lists. */
  lemma WithContainerBag(trip: Trip, cid: string, locs: seq<Location>)
    requires Container(trip, cid).Some?
    ensures TripBag(WithContainer(trip, cid, locs)) + multiset(Container(trip, cid).value)
         == TripBag(trip) + multiset(locs)
  {
    var before := multiset(Container(trip, cid).value);
    var after := multiset(locs);
    var r := WithContainer(trip, cid, locs);
    if cid == SavedId {
      var D := DaysBag(trip.days);
      calc {
        TripBag(r) + before;
        after + D + before;
        { BagAssoc(after, D, before); BagAssoc(D, before, after); BagAssoc(before, D, after); }
        before + D + after;
      }
    } else {
      var k := DayIndex(trip, cid);
      var S := multiset(trip.savedLocations);
      assert before == multiset(trip.days[k].locations);
      DaysBagUpdate(trip.days, k, trip.days[k].(locations := locs));
      calc {
        TripBag(r) + before;
        S + DaysBag(r.days) + before;
        { BagAssoc(S, DaysBag(r.days), before); }
        S + (DaysBag(r.days) + before);
        S + (DaysBag(trip.days) + after);
        { BagAssoc(S, DaysBag(trip.days), after); }
        TripBag(trip) + after;
      }
    }
  }

  lemma MoveWithinConserves(trip: Trip, cid: string, activeIndex: int, overIndex: int)
    requires Container(trip, cid).Some?
    requires SpliceStart(|Container(trip, cid).value|, activeIndex) < |Container(trip, cid).value|
    ensures TripBag(MoveWithin(trip, cid, activeIndex, overIndex)) == TripBag(trip)
  {
    var src := Container(trip, cid).value;
    var moved := ArrayMove(src, activeIndex, overIndex);
    WithContainerBag(trip, cid, moved);
    BagCancel(TripBag(MoveWithin(trip, cid, activeIndex, overIndex)), TripBag(trip), multiset(src));
  }

  lemma MoveAcrossConserves(trip: Trip, activeCid: string, overCid: string, activeIndex: int, overIndex: int)
    requires activeCid != overCid
    requires Container(trip, activeCid).Some? && Container(trip, overCid).Some?
    requires SpliceStart(|Container(trip, activeCid).value|, activeIndex) < |Container(trip, activeCid).value|
    ensures TripBag(MoveAcross(trip, activeCid, overCid, activeIndex, overIndex)) == TripBag(trip)
  {
    var src := Container(trip, activeCid).value;
    var dst := Container(trip, overCid).value;
    var i := SpliceStart(|src|, activeIndex);
    var rest := RemoveAt(src, i);
    var x := multiset{src[i]};
    var trip1 := WithContainer(trip, activeCid, rest);
    var into := InsertAt(dst, SpliceStart(|dst|, overIndex), src[i]);
    var trip2 := WithContainer(trip1, overCid, into);
    assert Container(trip1, overCid) == Some(dst);
    WithContainerBag(trip, activeCid, rest);
    WithContainerBag(trip1, overCid, into);
    // trip1 + (rest + x) == trip + rest, so trip1 + x == trip
    calc {
      TripBag(trip1) + x + multiset(rest);
      { BagAssoc(TripBag(trip1), x, multiset(rest)); BagAssoc(x, multiset(rest), TripBag(trip1)); }
      TripBag(trip1) + (multiset(rest) + x);
      TripBag(trip) + multiset(rest);
    }
    BagCancel(TripBag(trip1) + x, TripBag(trip), multiset(rest));
    // trip2 + dst == trip1 + (dst + x), so trip2 == trip1 + x
    calc {
      TripBag(trip2) + multiset(dst);
      TripBag(trip1) + (multiset(dst) + x);
      { BagAssoc(TripBag(trip1), multiset(dst), x); BagAssoc(TripBag(trip1), x, multiset(dst));
        BagAssoc(multiset(dst), x, TripBag(trip1)); }
      TripBag(trip1) + x + multiset(dst);
    }
    BagCancel(TripBag(trip2), TripBag(trip1) + x, multiset(dst));
  }

  /** Conservation: every trip holds the same multiset of locations after a
      move, so no location is lost, duplicated or invented. */
  lemma MoveLocationConserves(st: TripState, tripId: string, activeCid: string, overCid: string,
                              activeIndex: int, overIndex: int)
    requires RemovesItem(st, tripId, activeCid, overCid, activeIndex)
    ensures var r := MoveLocation(st, tripId, activeCid, overCid, activeIndex, overIndex);
      forall i :: 0 <= i < |st.trips| ==> TripBag(r.trips[i]) == TripBag(st.trips[i])
  {
    var k := TripIndex(st, tripId);
    if 0 <= k {
      var trip := st.trips[k];
      if Container(trip, activeCid).Some? && Container(trip, overCid).Some? {
        if activeCid == overCid {
          MoveWithinConserves(trip, activeCid, activeIndex, overIndex);
        } else {
          MoveAcrossConserves(trip, activeCid, overCid, activeIndex, overIndex);
        }
      }
    }
  }

  /** The move keeps the trip's metadata and its days' ids and titles. */
  lemma MoveLocationKeepsShape(st: TripState, tripId: string, activeCid: string, overCid: string,
                               activeIndex: int, overIndex: int)
    requires RemovesItem(st, tripId, activeCid, overCid, activeIndex)
    ensures var r := MoveLocation(st, tripId, activeCid, overCid, activeIndex, overIndex);
      forall i :: 0 <= i < |st.trips| ==> SameShape(st.trips[i], r.trips[i])
  {
  }

  /** Same-container move: the list becomes `arrayMove` of itself, and every
      other list of the trip is untouched. */
  lemma MoveLocationWithin(st: TripState, tripId: string, cid: string, activeIndex: int, overIndex: int, trip: Trip)
    requires FindTripById(st, tripId) == Some(trip)
    requires Container(trip, cid).Some?
    requires SpliceStart(|Container(trip, cid).value|, activeIndex) < |Container(trip, cid).value|
    ensures var r := MoveLocation(st, tripId, cid, cid, activeIndex, overIndex);
      var trip' := r.trips[TripIndex(st, tripId)];
      && Container(trip', cid) == Some(ArrayMove(Container(trip, cid).value, activeIndex, overIndex))
      && forall c :: c != cid && Container(trip, c).Some? ==> Container(trip', c) == Container(trip, c)
  {
  }

  /** The lists of a trip after the cross-container branch. */
  lemma MoveAcrossLists(trip: Trip, activeCid: string, overCid: string, activeIndex: int, overIndex: int)
    requires activeCid != overCid
    requires Container(trip, activeCid).Some? && Container(trip, overCid).Some?
    requires SpliceStart(|Container(trip, activeCid).value|, activeIndex) < |Container(trip, activeCid).value|
    ensures var trip' := MoveAcross(trip, activeCid, overCid, activeIndex, overIndex);
      var src := Container(trip, activeCid).value;
      var dst := Container(trip, overCid).value;
      var i := SpliceStart(|src|, activeIndex);
      && Container(trip', activeCid) == Some(RemoveAt(src, i))
      && Container(trip', overCid) == Some(InsertAt(dst, SpliceStart(|dst|, overIndex), src[i]))
      && forall c :: c != activeCid && c != overCid && Container(trip, c).Some? ==>
           Container(trip', c) == Container(trip, c)
  {
    var src := Container(trip, activeCid).value;
    var i := SpliceStart(|src|, activeIndex);
    var trip1 := WithContainer(trip, activeCid, RemoveAt(src, i));
    assert Container(trip1, overCid) == Container(trip, overCid);
  }

  /** With the trip found and both containers resolved, the trip's slot
      holds the moved trip. */
  lemma MoveLocationSlot(st: TripState, tripId: string, activeCid: string, overCid: string,
                         activeIndex: int, overIndex: int, trip: Trip)
    requires FindTripById(st, tripId) == Some(trip)
    requires Container(trip, activeCid).Some? && Container(trip, overCid).Some?
    requires 0 <= activeIndex < |Container(trip, activeCid).value|
    ensures 0 <= TripIndex(st, tripId) < |st.trips|
    ensures MoveLocation(st, tripId, activeCid, overCid, activeIndex, overIndex).trips[TripIndex(st, tripId)]
         == MovedTrip(trip, activeCid, overCid, activeIndex, overIndex)
  {
    assert st.trips[TripIndex(st, tripId)] == trip;
  }

  /** The two splices of a cross-container move with an in-range active
      index, written as slices. */
  lemma SpliceSlices<T>(src: seq<T>, dst: seq<T>, activeIndex: int, overIndex: int)
    requires 0 <= activeIndex < |src|
    ensures RemoveAt(src, SpliceStart(|src|, activeIndex)) == src[..activeIndex] + src[activeIndex + 1..]
    ensures overIndex >= |dst| ==> InsertAt(dst, SpliceStart(|dst|, overIndex), src[activeIndex]) == dst + [src[activeIndex]]
    ensures 0 <= overIndex < |dst| ==>
      InsertAt(dst, SpliceStart(|dst|, overIndex), src[activeIndex]) == dst[..overIndex] + [src[activeIndex]] + dst[overIndex..]
  {
    if overIndex >= |dst| {
      assert dst[..|dst|] == dst;
    }
  }

  /** Cross-container move: the active list loses exactly the element at
      `activeIndex`, the over list gains it at `overIndex` (appended when
      `overIndex` is past its end), and every other list is untouched. */
  lemma MoveLocationAcross(st: TripState, tripId: string, activeCid: string, overCid: string,
                           activeIndex: int, overIndex: int, trip: Trip)
    requires FindTripById(st, tripId) == Some(trip)
    requires activeCid != overCid
    requires Container(trip, activeCid).Some? && Container(trip, overCid).Some?
    requires 0 <= activeIndex < |Container(trip, activeCid).value|
    ensures var r := MoveLocation(st, tripId, activeCid, overCid, activeIndex, overIndex);
      var trip' := r.trips[TripIndex(st, tripId)];
      var src := Container(trip, activeCid).value;
      var dst := Container(trip, overCid).value;
      && Container(trip', activeCid) == Some(src[..activeIndex] + src[activeIndex + 1..])
      && (overIndex >= |dst| ==> Container(trip', overCid) == Some(dst + [src[activeIndex]]))
      && (0 <= overIndex < |dst| ==>
            Container(trip', overCid) == Some(dst[..overIndex] + [src[activeIndex]] + dst[overIndex..]))
      && forall c :: c != activeCid && c != overCid && Container(trip, c).Some? ==>
           Container(trip', c) == Container(trip, c)
  {
    MoveLocationSlot(st, tripId, activeCid, overCid, activeIndex, overIndex, trip);
    MoveAcrossLists(trip, activeCid, overCid, activeIndex, overIndex);
    SpliceSlices(Container(trip, activeCid).value, Container(trip, overCid).value, activeIndex, overIndex);
    assert MovedTrip(trip, activeCid, overCid, activeIndex, overIndex)
        == MoveAcross(trip, activeCid, overCid, activeIndex, overIndex);
  }

  /** Putting back the list a container already holds changes nothing. */
  lemma WithContainerSame(trip: Trip, cid: string)
    requires Container(trip, cid).Some?
    ensures WithContainer(trip, cid, Container(trip, cid).value) == trip
  {
    if cid != SavedId {
      var d := DayIndex(trip, cid);
      assert trip.days[d := trip.days[d].(locations := trip.days[d].locations)] == trip.days;
    }
  }

  /** A same-container move onto the same index leaves the whole state as it was. */
  lemma MoveLocationSameIndexIsNoop(st: TripState, tripId: string, cid: string, index: int, trip: Trip)
    requires FindTripById(st, tripId) == Some(trip)
    requires Container(trip, cid).Some?
    requires 0 <= index < |Container(trip, cid).value|
    ensures MoveLocation(st, tripId, cid, cid, index, index) == st
  {
    var k := TripIndex(st, tripId);
    var src := Container(trip, cid).value;
    MoveLocationSlot(st, tripId, cid, cid, index, index, trip);
    ArrayMoveSameIndex(src, index);
    WithContainerSame(trip, cid);
    assert MovedTrip(trip, cid, cid, index, index) == trip;
    assert st.trips[k] == trip;
    var r := MoveLocation(st, tripId, cid, cid, index, index);
    assert r.trips == st.trips;
  }
}
