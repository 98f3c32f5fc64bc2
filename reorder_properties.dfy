/**
 * What a drag-end does to an itinerary: the cases in which nothing changes,
 * the effect of a move within one day and across two days, and the
 * invariants every drop keeps (the activities of the whole itinerary as a
 * multiset, their number, and the uniqueness of day and activity ids).
 */
module ReorderProperties {
  import opened Wrappers
  import opened Types
  import opened Splice
  import opened ItineraryBoard

  /** No two days share an id, so a drop target id names at most one day. */
  predicate UniqueDayIds(days: seq<Day>) {
    forall i, j :: 0 <= i < j < |days| ==> days[i].id != days[j].id
  }

  /** Every activity of the itinerary, counted with multiplicity. */
  function AllActivities(days: seq<Day>): multiset<Activity> {
    if days == [] then multiset{} else multiset(days[0].activities) + AllActivities(days[1..])
  }

  /** The number of activities across all days. */
  function TotalActivities(days: seq<Day>): nat {
    if days == [] then 0 else |days[0].activities| + TotalActivities(days[1..])
  }

  /** No activity occurs twice and no two different activities share an id. */
  predicate UniqueActivityIds(activities: multiset<Activity>) {
    && (forall a :: a in activities ==> activities[a] == 1)
    && (forall a, b :: a in activities && b in activities && a.id == b.id ==> a == b)
  }

  /** The number of activities is the size of the itinerary's multiset of activities. */
  lemma {:induction false} TotalActivitiesCountsAll(days: seq<Day>)
    ensures |AllActivities(days)| == TotalActivities(days)
  {
    if days != [] {
      TotalActivitiesCountsAll(days[1..]);
    }
  }

  /** Replacing one day changes the itinerary's multiset by exactly that day's activities. */
  lemma {:induction false} AllActivitiesReplace(days: seq<Day>, k: nat, day: Day)
    requires k < |days|
    ensures AllActivities(days[k := day]) + multiset(days[k].activities)
         == AllActivities(days) + multiset(day.activities)
  {
    if k == 0 {
      assert days[k := day][1..] == days[1..];
    } else {
      var updated := days[k := day];
      assert updated[0] == days[0] && updated[1..] == days[1..][k - 1 := day];
      assert days[1..][k - 1] == days[k];
      AllActivitiesReplace(days[1..], k - 1, day);
      calc {
        AllActivities(updated) + multiset(days[k].activities);
        multiset(days[0].activities) + AllActivities(days[1..][k - 1 := day]) + multiset(days[k].activities);
        multiset(days[0].activities) + (AllActivities(days[1..][k - 1 := day]) + multiset(days[k].activities));
        multiset(days[0].activities) + (AllActivities(days[1..]) + multiset(day.activities));
        AllActivities(days) + multiset(day.activities);
      }
    }
  }

  /** With unique day ids, the same-day update rewrites the one day that has the id. */
  lemma WithActivitiesIsUpdate(days: seq<Day>, si: nat, activities: seq<Activity>)
    requires UniqueDayIds(days) && si < |days|
    ensures WithActivities(days, days[si].id, activities) == days[si := days[si].(activities := activities)]
  {
  }

  /** With unique day ids, the cross-day update rewrites exactly the source and the destination day. */
  lemma WithMovedActivitiesIsUpdate(days: seq<Day>, si: nat, sourceActivities: seq<Activity>,
                                    di: nat, destinationActivities: seq<Activity>)
    requires UniqueDayIds(days) && si < |days| && di < |days| && si != di
    ensures WithMovedActivities(days, days[si].id, sourceActivities, days[di].id, destinationActivities)
         == days[si := days[si].(activities := sourceActivities)][di := days[di].(activities := destinationActivities)]
  {
  }

  /**
   * The handler returns the itinerary unchanged when the drag was cancelled,
   * when the activity was dropped where it was picked up, when no day has
   * the source id, and when a cross-day drop names no existing day.
   */
  lemma NoOpDrops(it: Itinerary, result: DropResult)
    requires IndicesInRange(it, result)
    ensures result.destination.None? ==> Reorder(it, result) == it
    ensures result.destination.Some? && IsDropInPlace(result.source, result.destination.value)
      ==> Reorder(it, result) == it
    ensures FindDayIndex(it.days, result.source.droppableId).None? ==> Reorder(it, result) == it
    ensures result.destination.Some? && result.destination.value.droppableId != result.source.droppableId
      && FindDayIndex(it.days, result.destination.value.droppableId).None?
      ==> Reorder(it, result) == it
  {
  }

  /**
   * A move within one day replaces that day's list by the remove-then-insert
   * of the moved activity: the list keeps its length and its multiset, the
   * moved activity is at the destination index, the activities it passed
   * shift by one, and no other day, id or title changes.
   */
  lemma SameDayMove(it: Itinerary, source: DraggableLocation, destination: DraggableLocation, si: nat)
    requires UniqueDayIds(it.days)
    requires IndicesInRange(it, DropResult(source, Some(destination)))
    requires destination.droppableId == source.droppableId && destination.index != source.index
    requires FindDayIndex(it.days, source.droppableId) == Some(si)
    ensures var activities := it.days[si].activities;
      var moved := InsertAt(RemoveAt(activities, source.index), destination.index, activities[source.index]);
      var r := Reorder(it, DropResult(source, Some(destination)));
      && r == it.(days := it.days[si := it.days[si].(activities := moved)])
      && |moved| == |activities|
      && moved[destination.index] == activities[source.index]
      && multiset(moved) == multiset(activities)
      && forall k :: 0 <= k < |moved| ==> moved[k] == activities[OriginOf(source.index, destination.index, k)]
  {
    var activities := it.days[si].activities;
    MoveWithin(activities, source.index, destination.index);
    WithActivitiesIsUpdate(it.days, si, InsertAt(RemoveAt(activities, source.index), destination.index, activities[source.index]));
  }

  /**
   * A move across days shortens the source day's list by removing the moved
   * activity, lengthens the destination day's list by inserting it at the
   * destination index, and changes no other day, id or title.
   */
  lemma CrossDayMove(it: Itinerary, source: DraggableLocation, destination: DraggableLocation, si: nat, di: nat)
    requires UniqueDayIds(it.days)
    requires IndicesInRange(it, DropResult(source, Some(destination)))
    requires destination.droppableId != source.droppableId
    requires FindDayIndex(it.days, source.droppableId) == Some(si)
    requires FindDayIndex(it.days, destination.droppableId) == Some(di)
    ensures var from := it.days[si].activities;
      var into := it.days[di].activities;
      var r := Reorder(it, DropResult(source, Some(destination)));
      && si != di
      && r.days[si].activities == RemoveAt(from, source.index)
      && r.days[di].activities == InsertAt(into, destination.index, from[source.index])
      && |r.days[si].activities| == |from| - 1
      && |r.days[di].activities| == |into| + 1
      && r.days[di].activities[destination.index] == from[source.index]
      && r == it.(days := it.days[si := r.days[si]][di := r.days[di]])
  {
    var from := it.days[si].activities;
    var into := it.days[di].activities;
    WithMovedActivitiesIsUpdate(it.days, si, RemoveAt(from, source.index),
                                di, InsertAt(into, destination.index, from[source.index]));
  }

  /** Equal multiset sums with a common part are equal without it. */
  lemma MultisetCancel<T>(x: multiset<T>, y: multiset<T>, m: multiset<T>)
    requires x + m == y + m
    ensures x == y
  {
    assert forall a :: x[a] == (x + m)[a] - m[a];
  }

  /** A same-day move keeps the itinerary's multiset of activities. */
  lemma SameDayMoveKeepsActivities(it: Itinerary, source: DraggableLocation, destination: DraggableLocation, si: nat)
    requires UniqueDayIds(it.days)
    requires IndicesInRange(it, DropResult(source, Some(destination)))
    requires destination.droppableId == source.droppableId && destination.index != source.index
    requires FindDayIndex(it.days, source.droppableId) == Some(si)
    ensures AllActivities(Reorder(it, DropResult(source, Some(destination))).days) == AllActivities(it.days)
  {
    var r := Reorder(it, DropResult(source, Some(destination)));
    SameDayMove(it, source, destination, si);
    AllActivitiesReplace(it.days, si, r.days[si]);
    MultisetCancel(AllActivities(r.days), AllActivities(it.days), multiset(it.days[si].activities));
  }

  /**
   * Taking one activity out of one day and adding it to another day leaves
   * the itinerary's multiset of activities as it was.
   */
  lemma TransferKeepsActivities(days: seq<Day>, si: nat, from: seq<Activity>, di: nat, into: seq<Activity>, moved: Activity)
    requires si < |days| && di < |days| && si != di
    requires multiset(from) + multiset{moved} == multiset(days[si].activities)
    requires multiset(into) == multiset(days[di].activities) + multiset{moved}
    ensures AllActivities(days[si := days[si].(activities := from)][di := days[di].(activities := into)])
         == AllActivities(days)
  {
    var step := days[si := days[si].(activities := from)];
    var done := step[di := days[di].(activities := into)];
    assert step[di] == days[di];
    AllActivitiesReplace(days, si, step[si]);
    AllActivitiesReplace(step, di, done[di]);
    var before := multiset(days[si].activities) + multiset(days[di].activities);
    calc {
      AllActivities(done) + before;
      AllActivities(done) + multiset(days[di].activities) + multiset(days[si].activities);
      AllActivities(step) + multiset(into) + multiset(days[si].activities);
      AllActivities(step) + multiset(days[si].activities) + multiset(into);
      AllActivities(days) + multiset(from) + multiset(into);
      AllActivities(days) + (multiset(from) + multiset{moved}) + multiset(days[di].activities);
      AllActivities(days) + before;
    }
    MultisetCancel(AllActivities(done), AllActivities(days), before);
  }

  /** A cross-day move keeps the itinerary's multiset of activities. */
  lemma CrossDayMoveKeepsActivities(it: Itinerary, source: DraggableLocation, destination: DraggableLocation,
                                    si: nat, di: nat)
    requires UniqueDayIds(it.days)
    requires IndicesInRange(it, DropResult(source, Some(destination)))
    requires destination.droppableId != source.droppableId
    requires FindDayIndex(it.days, source.droppableId) == Some(si)
    requires FindDayIndex(it.days, destination.droppableId) == Some(di)
    ensures AllActivities(Reorder(it, DropResult(source, Some(destination))).days) == AllActivities(it.days)
  {
    var r := Reorder(it, DropResult(source, Some(destination)));
    var from := it.days[si].activities;
    var into := it.days[di].activities;
    CrossDayMove(it, source, destination, si, di);
    RemoveAtMultiset(from, source.index);
    InsertAtMultiset(into, destination.index, from[source.index]);
    TransferKeepsActivities(it.days, si, r.days[si].activities, di, r.days[di].activities, from[source.index]);
    assert it.days[si].(activities := r.days[si].activities) == r.days[si];
    assert it.days[di].(activities := r.days[di].activities) == r.days[di];
  }

  /**
   * Every drop keeps the activities of the whole itinerary, counted with
   * multiplicity, and so their total number: nothing is lost or duplicated.
   */
  lemma ReorderKeepsActivities(it: Itinerary, result: DropResult)
    requires UniqueDayIds(it.days)
    requires IndicesInRange(it, result)
    ensures AllActivities(Reorder(it, result).days) == AllActivities(it.days)
    ensures TotalActivities(Reorder(it, result).days) == TotalActivities(it.days)
  {
    var r := Reorder(it, result);
    if result.destination.Some? && !IsDropInPlace(result.source, result.destination.value) {
      var source := result.source;
      var destination := result.destination.value;
      match FindDayIndex(it.days, source.droppableId)
      case None =>
      case Some(si) =>
        if destination.droppableId == source.droppableId {
          SameDayMoveKeepsActivities(it, source, destination, si);
        } else {
          match FindDayIndex(it.days, destination.droppableId)
          case None =>
          case Some(di) => CrossDayMoveKeepsActivities(it, source, destination, si, di);
        }
    }
    TotalActivitiesCountsAll(r.days);
    TotalActivitiesCountsAll(it.days);
  }

  /** Every drop keeps day ids unique and activity ids unique across the itinerary. */
  lemma ReorderKeepsIdsUnique(it: Itinerary, result: DropResult)
    requires UniqueDayIds(it.days) && UniqueActivityIds(AllActivities(it.days))
    requires IndicesInRange(it, result)
    ensures UniqueDayIds(Reorder(it, result).days)
    ensures UniqueActivityIds(AllActivities(Reorder(it, result).days))
  {
    ReorderKeepsActivities(it, result);
  }
}
