/**
 * Concrete drops on the planner's sample data: one day, "day-1", holding
 * "activity-1" to "activity-5", and a second day for a cross-day move.
 */
module ReorderExamples {
  import opened Wrappers
  import opened Types
  import opened Splice
  import opened ItineraryBoard

  /** A sample activity; only its id matters to the reorder. */
  function Sample(id: string): Activity {
    Activity(id, "", "", 4.5, 0, "")
  }

  /**
   * Dragging the first of five activities to index 3 of the same day gives
   * B, C, D, A, E, and a drag that is cancelled or dropped in place changes nothing.
   */
  lemma SameDayExample()
    ensures var a, b, c, d, e := Sample("activity-1"), Sample("activity-2"), Sample("activity-3"),
                                 Sample("activity-4"), Sample("activity-5");
      var it := Itinerary("itinerary-1", [Day("day-1", "Day 1", [a, b, c, d, e])]);
      && Reorder(it, DropResult(DraggableLocation("day-1", 0), Some(DraggableLocation("day-1", 3))))
         == Itinerary("itinerary-1", [Day("day-1", "Day 1", [b, c, d, a, e])])
      && Reorder(it, DropResult(DraggableLocation("day-1", 0), None)) == it
      && Reorder(it, DropResult(DraggableLocation("day-1", 2), Some(DraggableLocation("day-1", 2)))) == it
  {
    var a, b, c, d, e := Sample("activity-1"), Sample("activity-2"), Sample("activity-3"),
                         Sample("activity-4"), Sample("activity-5");
    var acts := [a, b, c, d, e];
    assert RemoveAt(acts, 0) == [b, c, d, e];
    assert InsertAt([b, c, d, e], 3, a) == [b, c, d, a, e];
  }

  /**
   * Dragging the first activity of a day holding A, B to index 1 of a day
   * holding X, Y leaves B in the first day and X, A, Y in the second.
   */
  lemma CrossDayExample()
    ensures var a, b, x, y := Sample("A"), Sample("B"), Sample("X"), Sample("Y");
      var it := Itinerary("itinerary-1", [Day("day-1", "Day 1", [a, b]), Day("day-2", "Day 2", [x, y])]);
      Reorder(it, DropResult(DraggableLocation("day-1", 0), Some(DraggableLocation("day-2", 1))))
        == Itinerary("itinerary-1", [Day("day-1", "Day 1", [b]), Day("day-2", "Day 2", [x, a, y])])
  {
    var a, b, x, y := Sample("A"), Sample("B"), Sample("X"), Sample("Y");
    var days := [Day("day-1", "Day 1", [a, b]), Day("day-2", "Day 2", [x, y])];
    assert "day-1" != "day-2" by { assert "day-1"[4] != "day-2"[4]; }
    assert FindDayIndex(days, "day-1") == Some(0);
    assert FindDayIndex(days[1..], "day-2") == Some(0);
    assert FindDayIndex(days, "day-2") == Some(1);
    assert RemoveAt([a, b], 0) == [b];
    assert InsertAt([x, y], 1, a) == [x, a, y];
  }
}
