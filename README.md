# Mapty workout list, modelled in Dafny

Mapty is a browser workout tracker. A user clicks the map, enters a run or a
ride in a form, and the app keeps the records in a list that it saves to the
browser's local storage. The list can be edited, deleted from and sorted.
This project models the part of `Mapty/script.js` that has structure:

- the workout records (`Workout`, `Running`, `Cycling`): the id cut from the
  clock, the description built from type and date, and pace or speed derived
  from distance and duration;
- the validation in `_newWorkout`;
- the operations of `App` on its private `#workout` array: append on a valid
  submit, delete by id (`findIndex` and `splice`), edit by id (the `forEach`
  loop), the in-place sort with its four comparators, and save and load
  through the `workouts` storage slot.

Modules, leaves first:

- `Numbers` (numbers.dfy): JavaScript numbers as `Finite(real) | PosInf |
  NegInf | NaN`, with `/` and `-` and the comparator sign that `sort` reads.
- `Decimal` (decimal.dfy): `n + ''` and `String.prototype.slice` with a
  negative start.
- `Options` (options.dfy): an optional value.
- `Workouts` (workouts.dfy): the record datatype, the two constructors, the
  description, the id, the per-record edit.
- `Validation` (validation.dfy): `validInputs`, `allPositive` and the
  validation and construction part of `_newWorkout`.
- `WorkoutList` (workout_list.dfy): `findIndex`, `splice`, the edit loop as a
  function, and the sort, defined as a stable insertion sort.
- `Mapty` (app.dfy): class `App` with fields `workouts` (`#workout`) and
  `storage` (the `workouts` slot, `None` when empty) and one method per handler.

The JavaScript primitives `Number.isFinite` and `> 0` (`Numbers.IsFinite`,
`Numbers.IsPositive`), the `type` string (`Workouts.TypeName`) and
`toUpperCase` on one letter (`Workouts.ToUpper`) have no contract of their
own; the rows of the members that use them (`Validation.ValidInputs`,
`Validation.AllPositive`, `Workouts.CapitalizeFirst`, `Workouts.Description`)
state what they contribute.

Records are values. `App`'s methods replace the list field and state the new
list as a function of the old one. The fact that matters about each function
is proved as lemmas beside it.

Where the code behaves differently from what its users would expect, the
model follows the code:

- Edit does no validation, so an edit can store zero, negative or NaN values.
- Edit changes every record with the clicked item's id, and the item only
  has an input for its own type's extra value (lines 197-235). A record with
  that id but of the other type throws a TypeError at line 375 or 379. By
  then its distance, duration and pace or speed have been written. The
  records after it are not edited and the list is not saved (line 383).
- Deleting an id that is not in the list removes the last record. It is not a
  no-op.
- "Delete all" never clears the list. Line 321 calls `thi._setLocalStorage()`,
  which throws a ReferenceError after the storage has been cleared.
- The sort labels are inverted: `distance-h-l` sorts ascending.
- Ids are not unique. Two records made in the same millisecond, or 10^10 ms
  apart, get the same id.

## Model

| member | source | states |
|---|---|---|
| `Numbers.Div` | Mapty/script.js:41 | finite operands with a nonzero divisor give the exact quotient; a NaN operand gives NaN |
| `Numbers.Sub` | Mapty/script.js:413 | finite operands give the exact difference; the result is NaN exactly when an operand is NaN or both are the same infinity |
| `Numbers.SortSign` | Mapty/script.js:413-422 | the sign `sort` reads is positive exactly for a positive result and negative exactly for a negative one, so NaN reads as 0 |
| `Numbers.Compare` | Mapty/script.js:413-422 | equal keys (NaN included) compare 0; swapping the operands negates the result |
| `Numbers.CompareIsOrder` | Mapty/script.js:413-422 | without NaN, the sign of the comparator `a - b` is negative, zero or positive exactly when a < b, a = b or a > b |
| `Numbers.LessIsStrictTotalOrder` | Mapty/script.js:413-422 | the key order without NaN is irreflexive, asymmetric, total and transitive |
| `Decimal.NatToString` | Mapty/script.js:16 | `Date.now() + ''` is a non-empty digit string without a leading zero unless the number is 0 |
| `Decimal.NatToStringValue` | Mapty/script.js:16 | the decimal string of n is all digits and denotes n |
| `Decimal.NatToStringInjective` | Mapty/script.js:27 | different numbers have different decimal strings |
| `Decimal.NatToStringLength` | Mapty/script.js:16 | the decimal string is longer than k digits exactly when n >= 10^k |
| `Decimal.Slice` | Mapty/script.js:16 | `slice` returns a suffix: for a negative start the last min(-start, length) characters, for a non-negative one everything from that index on (nothing when it is past the end) |
| `Decimal.SuffixValue` | Mapty/script.js:16 | the last k digits of a digit string denote its value mod 10^k |
| `Decimal.DigitsInjective` | Mapty/script.js:16 | equal-length digit strings with equal value are equal |
| `Workouts.IdOf` | Mapty/script.js:16 | the id is the last ten characters of the clock's decimal string, or all of it when shorter; it is all digits |
| `Workouts.IdShape` | Mapty/script.js:16 | the id has at most 10 digits and denotes the clock reading mod 10^10 |
| `Workouts.IdOfShortClock` | Mapty/script.js:16 | below 10^10 the id is the whole decimal string of the clock reading |
| `Workouts.IdLengthTen` | Mapty/script.js:16 | from 10^9 on, the id has exactly ten digits |
| `Workouts.IdRepeats` | Mapty/script.js:16 | clock readings of at least ten digits that are 10^10 ms apart give the same id, so ids are not unique |
| `Workouts.CapitalizeFirst` | Mapty/script.js:27 | same length; first character upper-cased, the rest unchanged |
| `Workouts.Description` | Mapty/script.js:24-28 | the description is "Running on " or "Cycling on ", by type, followed by "<Month> <day>" of the date |
| `Workouts.DescriptionExample` | Mapty/script.js:25-27 | a run on month index 2, day 5 is described "Running on March 5" |
| `Workouts.MonthDayInjective` | Mapty/script.js:25-27 | "<Month> <day>" determines the month and the day string |
| `Workouts.DescriptionInjective` | Mapty/script.js:24-28 | the description determines the type, the month and the day |
| `Workouts.Pace` | Mapty/script.js:40-43 | finite distance and duration with a nonzero distance give pace duration / distance; a NaN input gives NaN |
| `Workouts.Speed` | Mapty/script.js:55-58 | finite distance and duration with a nonzero duration give speed distance * 60 / duration; a NaN input gives NaN |
| `Workouts.NewRunning` | Mapty/script.js:14-43 | a new run has the clock's id and date, the coordinate, distance, duration and cadence given, the run description, and a pace that agrees with distance and duration |
| `Workouts.NewCycling` | Mapty/script.js:14-58 | a new ride has the clock's id and date, the coordinate, distance, duration and elevation gain given, the ride description, and a speed that agrees with distance and duration |
| `Workouts.AppendKeepsConsistent` | Mapty/script.js:154 | appending a consistent record to a list of consistent records keeps every record consistent |
| `Workouts.ConsistentMetrics` | Mapty/script.js:40-58 | a consistent record with positive finite distance and duration has the finite pace duration / distance or speed distance * 60 / duration |
| `Workouts.RunningExample` | Mapty/script.js:33-42 | 5 km in 25 min with cadence 180 gives pace 5 |
| `Workouts.Edit` | Mapty/script.js:370-380 | an edited record keeps id, type, coordinate, date and description, takes the new distance and duration, takes the new cadence (run) or elevation gain (ride), and its pace or speed agrees with the new values |
| `Workouts.EditBeforeTypeError` | Mapty/script.js:370-379 | a record edited from an item of the other type takes the new distance and duration and a matching pace or speed, and keeps its cadence or elevation gain and everything else |
| `Workouts.EditIdempotent` | Mapty/script.js:367-381 | repeating an edit with the same values changes nothing more |
| `Workouts.EditExample` | Mapty/script.js:370-376 | editing that run to 10 km, 50 min, cadence 190 keeps pace 5 and sets cadence 190 |
| `Validation.ValidInputs` | Mapty/script.js:128 | `validInputs` holds exactly when every input is finite |
| `Validation.AllPositive` | Mapty/script.js:129 | `allPositive` holds exactly when every input is > 0 |
| `Validation.RunningInputs` | Mapty/script.js:140 | the run check passes exactly when distance, duration and cadence are finite and > 0 |
| `Validation.CyclingInputs` | Mapty/script.js:148 | the ride check passes exactly when all three are finite and distance and duration are > 0 |
| `Validation.BuildWorkout` | Mapty/script.js:127-152 | a run is accepted iff distance, duration and cadence are finite and > 0; a ride is accepted iff all three are finite and distance and duration are > 0; an accepted record has the form's type and values, the clock's id and date, the description, and a consistent pace or speed |
| `Validation.BuiltIsValid` | Mapty/script.js:138-152 | an accepted record is consistent and has positive finite distance and duration |
| `Validation.BuiltMetrics` | Mapty/script.js:138-152 | an accepted run's pace is exactly duration / distance; an accepted ride's speed is exactly distance * 60 / duration |
| `Validation.AppendBuiltKeepsConsistent` | Mapty/script.js:138-154 | pushing an accepted record keeps a consistent list consistent |
| `Validation.ValidationExamples` | Mapty/script.js:138-152 | a ride with elevation gain -50 is accepted; a run with cadence 0 is rejected |
| `WorkoutList.FindIndex` | Mapty/script.js:299 | the result is the first index with the id, or -1 exactly when no record has it |
| `WorkoutList.SpliceOne` | Mapty/script.js:300 | removes the element at the start index; a negative start counts from the end, and one below -length removes the first element; a start at or past the end removes nothing; the result's elements are among the list's |
| `WorkoutList.DeleteById` | Mapty/script.js:299-300 | a non-empty list loses exactly one record, whether or not the id is present; no record is added |
| `WorkoutList.DeleteFirstMatch` | Mapty/script.js:299-300 | with the id present, delete removes exactly the first record with that id, keeps the rest in order, and shrinks the list by one |
| `WorkoutList.DeleteAbsent` | Mapty/script.js:299-300 | with the id absent, delete removes the last record (`splice(-1, 1)`) |
| `WorkoutList.AddThenDelete` | Mapty/script.js:154 | appending a record with a fresh id, then deleting that id, restores the list |
| `WorkoutList.AddThenDeleteDuplicate` | Mapty/script.js:299-300 | when an older record has the same id, deleting the new record's item removes the older one instead |
| `WorkoutList.EditById` | Mapty/script.js:367-381 | the loop run to the end keeps the list's length and leaves every record with another id as it is |
| `WorkoutList.EditByIdFields` | Mapty/script.js:367-381 | at each position, id, type, coordinate, date and description are kept; a matching record gets the new distance, duration and cadence (run) or elevation gain (ride) and a consistent pace or speed |
| `WorkoutList.EditByIdAbsent` | Mapty/script.js:367-368 | with no matching id the list is unchanged |
| `WorkoutList.EditByIdIdempotent` | Mapty/script.js:367-381 | when the loop does not throw, running it twice with the same values gives the same list as running it once |
| `WorkoutList.EditForItemIdempotent` | Mapty/script.js:367-381 | the edit handler, registered again on every edit click (line 255), gives the same list however often it runs for one key press, also when the loop throws: the second run stops at the same record |
| `WorkoutList.FirstMismatch` | Mapty/script.js:367-381 | the first index whose record has the id but not the item's type, or -1 exactly when there is none |
| `WorkoutList.EditPrefix` | Mapty/script.js:367-381 | after visiting the first n records the length is kept and the records from n on are untouched |
| `WorkoutList.EditPrefixStep` | Mapty/script.js:368-380 | visiting record n edits it exactly when its id matches |
| `WorkoutList.EditPrefixAll` | Mapty/script.js:367-381 | visiting every record gives the full edit |
| `WorkoutList.EditForItem` | Mapty/script.js:367-381 | the loop throws exactly when some record with the id is of the other type than the list item, which only has its own type's input (lines 197-235); otherwise every matching record is edited |
| `WorkoutList.EditForItemThrows` | Mapty/script.js:367-381 | when record k is the first such record, the records before it are edited, record k gets only distance, duration and pace or speed, and the records after it are unchanged |
| `WorkoutList.EditForOwnItem` | Mapty/script.js:367-381 | when every record with the id has the item's type, the loop does not throw and edits every match |
| `WorkoutList.Cmp` | Mapty/script.js:413-422 | the comparator's sign is -1, 0 or 1, and records with equal keys compare 0 |
| `WorkoutList.OrderFor` | Mapty/script.js:412-422 | the sort is by distance exactly for `distance-h-l` and `distance-l-h`, and ascending exactly for `distance-h-l` and `duration-h-l`; any other value, the empty one included, sorts by duration descending |
| `WorkoutList.Insert` | Mapty/script.js:413 | inserting adds exactly one element |
| `WorkoutList.SortBy` | Mapty/script.js:413-422 | the sorted list is a permutation of the list |
| `WorkoutList.InsertSorted` | Mapty/script.js:413-422 | without NaN keys, inserting into a list sorted under the comparator keeps it sorted |
| `WorkoutList.SortOrdered` | Mapty/script.js:413-422 | without NaN keys, the sorted list's keys are in the order asked for |
| `WorkoutList.SortStable` | Mapty/script.js:413-422 | for every key value, the records with that key keep their relative order |
| `WorkoutList.SortUnique` | Mapty/script.js:413-422 | without NaN keys, any ordered, stable permutation equals the model's sort, so the model agrees with every conforming `Array.prototype.sort` |
| `WorkoutList.ListOperationsKeepConsistent` | Mapty/script.js:154-422 | append, delete, edit (thrown or not) and sort keep every record's pace or speed in agreement with its distance and duration |
| `WorkoutList.EditForItemKeepsConsistent` | Mapty/script.js:367-381 | the edit loop, also when it throws, keeps a consistent list consistent |
| `WorkoutList.SubMultisetConsistent` | Mapty/script.js:299-423 | a list whose records all come from a consistent list is consistent |
| `Mapty.App.constructor` | Mapty/script.js:67-73 | the list starts as the stored copy, or empty when the slot is empty |
| `Mapty.App.SetLocalStorage` | Mapty/script.js:271-273 | the slot holds a copy of the current list |
| `Mapty.App.GetLocalStorage` | Mapty/script.js:275-280 | an empty slot leaves the list; otherwise the stored copy replaces it |
| `Mapty.App.NewWorkout` | Mapty/script.js:127-160 | rejected: list and storage unchanged; accepted: exactly the new record appended at the end and the list saved; a consistent list stays consistent |
| `Mapty.App.DeleteWorkout` | Mapty/script.js:292-313 | no item: nothing changes; otherwise the list becomes the splice at `findIndex` and equals the copy just saved and re-read; a consistent list stays consistent |
| `Mapty.App.DeleteAll` | Mapty/script.js:315-323 | after confirmation the storage is cleared, the error is raised and the list is unchanged; no confirmation changes nothing |
| `Mapty.App.EditWorkout` | Mapty/script.js:325-384 | a key other than Enter changes nothing; on Enter the list becomes the loop's result for the item's type; it is saved when the loop finished and not saved when it threw; a consistent list stays consistent |
| `Mapty.App.EditMatching` | Mapty/script.js:367-381 | the `forEach` loop over the list computes exactly what `EditForItem` describes, the thrown flag included |
| `Mapty.App.SortWorkout` | Mapty/script.js:409-425 | the list becomes its stable sort under the selected comparator; storage is untouched; a consistent list stays consistent |
| `Mapty.Reload` | Mapty/script.js:432 | a new App over the slot the last save wrote holds the same list |

## Left out

- The Leaflet map: tiles, markers, popups, `_loadMap`, `_renderWorkoutMarker`, `_removeWorkoutMarker` and `_moveToPopup`. This includes the `#marker` array. It is filled inconsistently (lines 155 and 177) and searched with an assignment (line 302), and none of it affects the workout list.
- DOM rendering: `_renderWorkout`, form show and hide, the field toggles, `setTimeout`, `_toggleEditWorkout`, the text updates at lines 341-365 and the re-render after sorting. These are UI output only.
- Geolocation: `_getPosition` is I/O.
- `reset()`: it reloads the page. `Mapty.Reload` models what a reload reads back.
- JSON encoding: the slot holds the list value itself. `JSON.stringify` turns the `Date` into a string, drops the class prototypes and turns NaN and Infinity into null. A malformed stored value would make `JSON.parse` throw.
- Floating point: arithmetic is exact on reals. IEEE rounding and the sign of zero are not modelled. The `toFixed(1)` display is left out.
- Input coercion: `+input.value` at submit and the string values stored by edit become `Num` parameters. The conversion from text is not modelled.
- Clock, timezone and events: `Date.now()`, the local `getMonth()`/`getDate()`, the clicked coordinate, the Enter key and the `confirm` answer are parameters. The id and the date come from two separate clock readings, so they are two parameters.
- The type select: it offers only `running` and `cycling`, so the type is a two-value datatype. The HTML that declares the select is not part of this model. With any other value the source would push `undefined`.
- Record identity: a record is a value, not a shared object. The edit loop assigns fields on the objects in the array; the model replaces the matching elements. Aliasing through the `#marker` push at line 155 is not captured.
- In-place sort: `App.SortWorkout` replaces the list with its sorted copy. The `sortedWorkout` alias is only used for rendering.
- Errors thrown before any state change are not modelled: a submit before any map click (`#mapEvent` undefined), or an edit whose key press came from outside a list item.
- WorkoutList.SortOrdered: proved only when no sort key is NaN. With a NaN key the comparator is inconsistent, and ECMA-262 leaves the order implementation-defined. The model's order is one admissible choice; permutation and per-key stability still hold.
- Mapty.App.DeleteAll: the ReferenceError is returned as a flag, not propagated as an exception.
