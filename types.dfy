/**
 * The itinerary data model: an itinerary is an ordered sequence of days,
 * and each day holds an ordered sequence of activities. The order of both
 * sequences is the order in which the planner shows them.
 */
module Types {
  /**
   * One point of interest. The rating is a floating-point number in the
   * application; the reorder never computes with it, so it is kept as an
   * opaque `real`.
   */
  datatype Activity = Activity(
    id: string,
    name: string,
    description: string,
    rating: real,
    reviewCount: int,
    imageUrl: string)

  /** A day of the trip; its id doubles as the id of its drop target. */
  datatype Day = Day(id: string, title: string, activities: seq<Activity>)

  datatype Itinerary = Itinerary(id: string, days: seq<Day>)
}
