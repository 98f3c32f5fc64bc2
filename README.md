# Itinerary drag-and-drop reorder, in Dafny

A travel-itinerary planner shows an itinerary as an ordered list of days.
Each day holds an ordered list of activity cards. The user drags a card
within a day or from one day to another. When the drag ends, the handler
`handleDragEnd` computes the next itinerary from the drag's source position
and its optional destination position. Each position is a drop-target id
plus an index, and a drop target is a day, addressed by the day's id.

This project models that handler and its data types:

- `types.dfy` (module `Types`): `Activity`, `Day` and `Itinerary`, as in
  `src/types/index.ts`.
- `splice.dfy` (module `Splice`): the two `splice` calls the handler makes on
  copies of activity lists. `RemoveAt` models `splice(i, 1)` and `InsertAt`
  models `splice(i, 0, x)`. The module proves their multiset effect, that each
  one undoes the other, and where every element goes when an activity moves
  within one list.
- `itinerary.dfy` (module `ItineraryBoard`): the drag result, the day lookup
  (`days.find`), the two `days.map` updates and the handler itself, `Reorder`.
  `Reorder` returns the given itinerary unchanged on each early return.
- `reorder_properties.dfy` (module `ReorderProperties`): the no-op cases, what
  same-day and cross-day moves do to each day, and the invariants every drop
  keeps.
- `reorder_examples.dfy` (module `ReorderExamples`): the sample day of five
  activities and a two-day move, worked out concretely.

The handler copies a day's list with `Array.from` and then splices the copy in
place. The copy is fresh and nothing else refers to it, so the in-place
mutation cannot be observed. The model therefore states each splice as a
function from the old list to the new one. The component's state hook is
modelled by `Reorder`'s result: an early return is the unchanged itinerary,
and `setItinerary` is the returned value.

The handler returns early, leaving the state unchanged, when no day has the
source id (`src/components/Itinerary.tsx:36`). It also returns early when a
cross-day drop names a destination day that does not exist
(`src/components/Itinerary.tsx:68`). Both are no-ops here.

Each `days.map` update rewrites every day whose id matches, not only the day
`find` returned. `Reorder` models this as written, so it needs no
assumption about day ids. Unique day ids are a hypothesis of the lemmas
instead. Day ids are meant to be unique, since a day's id is its drop-target
id (`src/components/DayItinerary.tsx:18`). With duplicate ids a cross-day
move would not preserve the number of activities.

`Reorder` requires `IndicesInRange`. The source index must name an activity
of the source day. The destination index must be at most the length of the
list it is inserted into. For a same-day move that list is the shortened
one. The drag-and-drop library reports only such indices. The requirement applies only on
paths that use a splice result. A cross-day drop onto a missing day needs no
index, because the handler throws its spliced copy away.

## Model

| member | source | states |
|---|---|---|
| `Splice.RemoveAt` | src/components/Itinerary.tsx:41-42 | removing the dragged activity from a copy of the list shortens it by one; earlier activities keep their index and later ones move down by one |
| `Splice.InsertAt` | src/components/Itinerary.tsx:73-74 | inserting at an index no larger than the length lengthens the list by one; the activity sits at that index, earlier activities stay and later ones move up by one |
| `Splice.RemoveAtMultiset` | src/components/Itinerary.tsx:42 | the removal takes exactly one occurrence of the moved activity out of the list |
| `Splice.InsertAtMultiset` | src/components/Itinerary.tsx:47 | the insertion adds exactly one occurrence of the moved activity |
| `Splice.InsertUndoesRemove` | src/components/Itinerary.tsx:42-47 | inserting the removed activity back at its own index restores the original list |
| `Splice.RemoveUndoesInsert` | src/components/Itinerary.tsx:42-47 | removing the activity just inserted restores the list |
| `Splice.MoveWithin` | src/components/Itinerary.tsx:39-47 | a remove followed by an insert into the shortened list keeps the length and the multiset; the moved activity is at the destination index; each other position holds the element `OriginOf` names |
| `ItineraryBoard.FindDayIndex` | src/components/Itinerary.tsx:35 | the lookup finds the first day with the given id, or reports none exactly when no day has that id |
| `ItineraryBoard.WithActivities` | src/components/Itinerary.tsx:50-58 | the same-day update keeps the number of days; every day with the source id gets the new list and every other day is kept |
| `ItineraryBoard.WithMovedActivities` | src/components/Itinerary.tsx:77-91 | the cross-day update keeps the number of days; source-id days get the shortened list; other destination-id days get the lengthened list; all other days are kept |
| `ItineraryBoard.Reorder` | src/components/Itinerary.tsx:27-97 | every drop keeps the itinerary id, the number and order of days, and each day's id and title |
| `ReorderProperties.WithActivitiesIsUpdate` | src/components/Itinerary.tsx:50-58 | with unique day ids, the same-day update changes exactly the one day that has the id |
| `ReorderProperties.WithMovedActivitiesIsUpdate` | src/components/Itinerary.tsx:77-91 | with unique day ids, the cross-day update changes exactly the source day and the destination day |
| `ReorderProperties.NoOpDrops` | src/components/Itinerary.tsx:30-68 | the itinerary is unchanged for a cancelled drag, a drop in place, an unknown source day, and a cross-day drop onto an unknown day |
| `ReorderProperties.SameDayMove` | src/components/Itinerary.tsx:39-63 | a same-day move replaces only that day's list, by the remove-then-insert of the moved activity; the list keeps its length and multiset, the moved activity lands at the destination index and the others shift as `OriginOf` says |
| `ReorderProperties.CrossDayMove` | src/components/Itinerary.tsx:66-96 | a cross-day move makes the source list one shorter by removing the activity; the destination list gets it at the destination index and becomes one longer; every other day is unchanged |
| `ReorderProperties.SameDayMoveKeepsActivities` | src/components/Itinerary.tsx:39-63 | a same-day move keeps the multiset of all activities of the itinerary |
| `ReorderProperties.TransferKeepsActivities` | src/components/Itinerary.tsx:71-91 | moving one activity from one day's list to another day's list keeps the multiset of all activities |
| `ReorderProperties.CrossDayMoveKeepsActivities` | src/components/Itinerary.tsx:66-96 | a cross-day move keeps the multiset of all activities of the itinerary |
| `ReorderProperties.ReorderKeepsActivities` | src/components/Itinerary.tsx:27-97 | every drop keeps the multiset of all activities and their total number: nothing is lost or duplicated |
| `ReorderProperties.ReorderKeepsIdsUnique` | src/components/Itinerary.tsx:27-97 | every drop keeps day ids unique and keeps activity ids unique across the itinerary |
| `ReorderExamples.SameDayExample` | src/components/Itinerary.tsx:39-63 | with day-1 holding activities 1 to 5, moving index 0 to index 3 gives 2, 3, 4, 1, 5; a cancelled or in-place drop changes nothing |
| `ReorderExamples.CrossDayExample` | src/components/Itinerary.tsx:66-96 | moving index 0 of a day holding A, B to index 1 of a day holding X, Y gives B and X, A, Y |

## Left out

- The DOM clean-up at the start of the handler (removing the dragging CSS classes) and the empty drag-start and drag-update handlers: browser side effects with no bearing on the itinerary.
- The drag-and-drop library and the UI framework's state, memoisation and rendering: their code is not part of this model. A drop result is a parameter, and the new state is `Reorder`'s result.
- Out-of-range indices: `Reorder` requires `IndicesInRange`. JavaScript's `splice` would clamp such an index or move `undefined` into a list. The drag-and-drop library never reports such indices. Negative indices, which `splice` counts from the end of the list, are excluded by the type: `DraggableLocation.index` is a `nat`.
- `rating` and `reviewCount` are JavaScript numbers (floating point) in the source. They are an opaque `real` and `int` here, because the reorder never computes with them.
- The activity card, the day list, the application shell and the sample data module: presentation and static data. The sample day appears in `ReorderExamples`.
