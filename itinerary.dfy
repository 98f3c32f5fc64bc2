/**
 * The drag-end handler of the itinerary planner: given where a dragged
 * activity was picked up and where (if anywhere) it was dropped, compute the
 * next itinerary. Drop targets are days, addressed by the day's id, and a
 * position inside a day is an index into its activity list.
 */
module ItineraryBoard {
  import opened Wrappers
  import opened Types
  import opened Splice

  /** A position reported by the drag-and-drop library: a drop target id and an index in it. */
  datatype DraggableLocation = DraggableLocation(droppableId: string, index: nat)

  /** What a finished drag reports: where it started and, unless it was cancelled, where it ended. */
  datatype DropResult = DropResult(source: DraggableLocation, destination: Option<DraggableLocation>)

  /** `days.find(day => day.id === id)`, as the index of the first day with that id. */
  function FindDayIndex(days: seq<Day>, id: string): (r: Option<nat>)
    ensures r.Some? ==> r.value < |days| && days[r.value].id == id
    ensures r.Some? ==> forall k :: 0 <= k < r.value ==> days[k].id != id
    ensures r.None? <==> forall k :: 0 <= k < |days| ==> days[k].id != id
  {
    if days == [] then None
    else if days[0].id == id then Some(0)
    else match FindDayIndex(days[1..], id)
      case None => None
      case Some(i) => Some(i + 1)
  }

  /** The day list of a same-day move: every day with the given id gets the new activity list. */
  function WithActivities(days: seq<Day>, id: string, activities: seq<Activity>): (r: seq<Day>)
    ensures |r| == |days|
    ensures forall k :: 0 <= k < |days| && days[k].id == id ==> r[k] == days[k].(activities := activities)
    ensures forall k :: 0 <= k < |days| && days[k].id != id ==> r[k] == days[k]
  {
    if days == [] then []
    else
      [if days[0].id == id then days[0].(activities := activities) else days[0]]
      + WithActivities(days[1..], id, activities)
  }

  /**
   * The day list of a cross-day move: days with the source id get the
   * shortened list, the remaining days with the destination id get the
   * lengthened one, and all other days are kept.
   */
  function WithMovedActivities(days: seq<Day>, sourceId: string, sourceActivities: seq<Activity>,
                               destinationId: string, destinationActivities: seq<Activity>): (r: seq<Day>)
    ensures |r| == |days|
    ensures forall k :: 0 <= k < |days| && days[k].id == sourceId ==> r[k] == days[k].(activities := sourceActivities)
    ensures forall k :: 0 <= k < |days| && days[k].id != sourceId && days[k].id == destinationId ==>
      r[k] == days[k].(activities := destinationActivities)
    ensures forall k :: 0 <= k < |days| && days[k].id != sourceId && days[k].id != destinationId ==> r[k] == days[k]
  {
    if days == [] then []
    else
      var day := days[0];
      [if day.id == sourceId then day.(activities := sourceActivities)
       else if day.id == destinationId then day.(activities := destinationActivities)
       else day]
      + WithMovedActivities(days[1..], sourceId, sourceActivities, destinationId, destinationActivities)
  }

  /** The drop is back onto the position the drag started from. */
  predicate IsDropInPlace(source: DraggableLocation, destination: DraggableLocation) {
    destination.droppableId == source.droppableId && destination.index == source.index
  }

  /**
   * The indices the drag-and-drop library reports are in range wherever the
   * handler uses the result of a splice: the source index names an activity
   * of the source day, and the destination index is at most the length of the
   * list it is inserted into (the shortened list when the move stays within
   * one day). Where the handler returns early no index is needed.
   */
  predicate IndicesInRange(it: Itinerary, result: DropResult) {
    match result.destination
    case None => true
    case Some(destination) =>
      var source := result.source;
      IsDropInPlace(source, destination) ||
      match FindDayIndex(it.days, source.droppableId)
      case None => true
      case Some(si) =>
        var n := |it.days[si].activities|;
        if destination.droppableId == source.droppableId then
          source.index < n && destination.index < n
        else
          match FindDayIndex(it.days, destination.droppableId)
          case None => true
          case Some(di) => source.index < n && destination.index <= |it.days[di].activities|
  }

  /**
   * The next itinerary after a drag ends. It is the given itinerary itself
   * when the drag was cancelled, dropped where it started, or names a day
   * that does not exist; otherwise the activity is removed from its source
   * day and inserted into its destination day. The itinerary id, the number
   * and order of days, and every day's id and title are always kept.
   */
  function Reorder(it: Itinerary, result: DropResult): (r: Itinerary)
    requires IndicesInRange(it, result)
    ensures r.id == it.id && |r.days| == |it.days|
    ensures forall k :: 0 <= k < |it.days| ==> r.days[k].id == it.days[k].id && r.days[k].title == it.days[k].title
  {
    match result.destination
    case None => it
    case Some(destination) =>
      var source := result.source;
      if IsDropInPlace(source, destination) then it
      else match FindDayIndex(it.days, source.droppableId)
        case None => it
        case Some(si) =>
          var sourceActivities := it.days[si].activities;
          if destination.droppableId == source.droppableId then
            var moved := sourceActivities[source.index];
            var activities := InsertAt(RemoveAt(sourceActivities, source.index), destination.index, moved);
            it.(days := WithActivities(it.days, source.droppableId, activities))
          else
            match FindDayIndex(it.days, destination.droppableId)
            case None => it
            case Some(di) =>
              var moved := sourceActivities[source.index];
              var destinationActivities := InsertAt(it.days[di].activities, destination.index, moved);
              it.(days := WithMovedActivities(it.days, source.droppableId, RemoveAt(sourceActivities, source.index),
                                              destination.droppableId, destinationActivities))
  }
}
