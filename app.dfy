/** The `App` controller's workout list (Mapty/script.js:63-430): the private
    `#workout` array and the `localStorage` slot `workouts`, and the handlers
    that change them. Map, markers and DOM are not part of this model; the
    values the handlers read from the DOM, the clock and the event are
    parameters. */
module Mapty {
  import opened Numbers
  import opened Options
  import opened Workouts
  import opened Validation
  import opened WorkoutList

  class App {
    /** `#workout` */
    var workouts: seq<Workout>
    /** `localStorage.getItem('workouts')`, parsed: None when the slot is empty */
    var storage: Option<seq<Workout>>

    /** Lines 67 and 73: start with an empty list and load the stored copy, if any. */
    constructor (stored: Option<seq<Workout>>)
      ensures storage == stored
      ensures workouts == stored.GetOr([])
    {
      workouts := [];
      storage := stored;
      new;
      GetLocalStorage();
    }

    /** `_setLocalStorage`: store a copy of the current list. */
    method SetLocalStorage()
      modifies this`storage
      ensures storage == Some(workouts)
    {
      storage := Some(workouts);
    }

    /** `_getLocalStorage`: an empty slot leaves the list alone, otherwise the
        stored copy replaces it wholesale. */
    method GetLocalStorage()
      modifies this`workouts
      ensures workouts == old(storage).GetOr(old(workouts))
    {
      var data := storage;
      if data.None? {
        return;
      }
      workouts := data.value;
    }

    /** `_newWorkout`: a rejected submit (the alert) leaves list and storage as
        they were; an accepted one appends exactly the new record and saves. */
    method NewWorkout(form: FormInput, coord: Coord, date: CalendarDate, now: nat) returns (accepted: bool)
      modifies this
      ensures accepted <==> BuildWorkout(form, coord, date, now).Some?
      ensures accepted ==> workouts == old(workouts) + [BuildWorkout(form, coord, date, now).value]
      ensures accepted ==> storage == Some(workouts)
      ensures !accepted ==> workouts == old(workouts) && storage == old(storage)
      ensures old(AllConsistent(workouts)) ==> AllConsistent(workouts)
    {
      var workout := BuildWorkout(form, coord, date, now);
      if workout.None? {
        return false;
      }
      if AllConsistent(workouts) {
        AppendBuiltKeepsConsistent(workouts, form, coord, date, now);
      }
      workouts := workouts + [workout.value];
      SetLocalStorage();
      accepted := true;
    }

    /** `_deleteWorkout`: `target` is the id on the clicked list item (None when
        the click was outside one). Splice at `findIndex`, save, then re-read the
        copy just saved. */
    method DeleteWorkout(target: Option<string>)
      modifies this
      ensures target.None? ==> workouts == old(workouts) && storage == old(storage)
      ensures target.Some? ==> workouts == DeleteById(old(workouts), target.value)
      ensures target.Some? ==> storage == Some(workouts)
      ensures old(AllConsistent(workouts)) ==> AllConsistent(workouts)
    {
      if target.None? {
        return;
      }
      if AllConsistent(workouts) {
        SubMultisetConsistent(workouts, DeleteById(workouts, target.value));
      }
      var index := FindIndex(workouts, target.value);
      workouts := SpliceOne(workouts, index);
      SetLocalStorage();
      var data := storage;
      if data.Some? {
        workouts := data.value;
      }
    }

    /** `_deleteAll` as written: after confirmation the storage is cleared, then
        `thi._setLocalStorage()` throws a ReferenceError, so the list is never
        cleared. `threw` reports the error. */
    method DeleteAll(sure: bool) returns (threw: bool)
      modifies this`storage
      ensures threw == sure
      ensures storage == if sure then None else old(storage)
    {
      if !sure {
        return false;
      }
      storage := None;
      threw := true;
    }

    /** `_editWorkout` from a list item of type `item` with id `targetId`: on
        Enter, the `forEach` loop edits every record with that id, then the list
        is saved. No validation. A matching record of the other type makes the
        loop throw (`threw`) after it was partly written: the records after it
        stay unedited and the list is not saved. */
    method EditWorkout(key: string, item: WorkoutType, targetId: string, distance: Num, duration: Num,
                       cadence: Num, elevation: Num) returns (threw: bool)
      modifies this
      ensures key != "Enter" ==> !threw && workouts == old(workouts) && storage == old(storage)
      ensures key == "Enter" ==>
        var r := EditForItem(old(workouts), item, targetId, distance, duration, cadence, elevation);
        workouts == r.workouts && threw == r.threw
      ensures key == "Enter" && !threw ==> storage == Some(workouts)
      ensures threw ==> storage == old(storage)
      ensures old(AllConsistent(workouts)) ==> AllConsistent(workouts)
    {
      threw := false;
      if key != "Enter" {
        return;
      }
      if AllConsistent(workouts) {
        EditForItemKeepsConsistent(workouts, item, targetId, distance, duration, cadence, elevation);
      }
      threw := EditMatching(item, targetId, distance, duration, cadence, elevation);
      if threw {
        return;
      }
      SetLocalStorage();
    }

    /** The `forEach` loop of `_editWorkout` (lines 367-381): each record with
        the id gets the new values, until a record of the other type than the
        item throws. */
    method EditMatching(item: WorkoutType, targetId: string, distance: Num, duration: Num,
                        cadence: Num, elevation: Num) returns (threw: bool)
      modifies this`workouts
      ensures var r := EditForItem(old(workouts), item, targetId, distance, duration, cadence, elevation);
        workouts == r.workouts && threw == r.threw
    {
      threw := false;
      ghost var before := workouts;
      var i := 0;
      while i < |workouts|
        invariant 0 <= i <= |before|
        invariant !threw
        invariant workouts == EditPrefix(before, targetId, distance, duration, cadence, elevation, i)
        invariant forall j :: 0 <= j < i ==> !(before[j].id == targetId && TypeOf(before[j]) != item)
      {
        EditPrefixStep(before, targetId, distance, duration, cadence, elevation, i);
        assert workouts[i] == before[i];
        if workouts[i].id == targetId {
          if TypeOf(workouts[i]) != item {
            workouts := workouts[i := EditBeforeTypeError(workouts[i], distance, duration)];
            threw := true;
            break;
          }
          workouts := workouts[i := Edit(workouts[i], distance, duration, cadence, elevation)];
        }
        i := i + 1;
      }
      if threw {
        assert FirstMismatch(before, targetId, item) == i;
      } else {
        EditPrefixAll(before, targetId, distance, duration, cadence, elevation);
      }
    }

    /** `_sortWorkout`: sort the list in place with the selected comparator. The
        sorted order is not saved. */
    method SortWorkout(selected: string)
      modifies this`workouts
      ensures workouts == SortBy(old(workouts), OrderFor(selected))
      ensures old(AllConsistent(workouts)) ==> AllConsistent(workouts)
    {
      if AllConsistent(workouts) {
        SubMultisetConsistent(workouts, SortBy(workouts, OrderFor(selected)));
      }
      workouts := SortBy(workouts, OrderFor(selected));
    }
  }

  /** Line 432 on a page reload: a new App built over the slot that the
      previous one saved holds the same list. */
  method Reload(app: App) returns (reloaded: App)
    requires app.storage == Some(app.workouts)
    ensures reloaded.workouts == app.workouts
  {
    reloaded := new App(app.storage);
  }
}
