/** The submit handler's validation and record construction
    (`_newWorkout`, Mapty/script.js:127-152). */
module Validation {
  import opened Numbers
  import opened Options
  import opened Workouts

  /** The values read from the form: the type select and the four numeric
      inputs after `+input.value`. */
  datatype FormInput = FormInput(
    kind: WorkoutType,
    distance: Num,
    duration: Num,
    cadence: Num,
    elevation: Num)

  /** `validInputs(...inputs)`: `inputs.every(Number.isFinite)`, which holds
      exactly when every input is finite. */
  function ValidInputs(inputs: seq<Num>): (r: bool)
    ensures r <==> forall i :: 0 <= i < |inputs| ==> IsFinite(inputs[i])
  {
    if inputs == [] then true
    else
      assert forall i :: 1 <= i < |inputs| ==> inputs[i] == inputs[1..][i - 1];
      IsFinite(inputs[0]) && ValidInputs(inputs[1..])
  }

  /** `allPositive(...inputs)`: `inputs.every(inp => inp > 0)`, which holds
      exactly when every input is above zero. */
  function AllPositive(inputs: seq<Num>): (r: bool)
    ensures r <==> forall i :: 0 <= i < |inputs| ==> IsPositive(inputs[i])
  {
    if inputs == [] then true
    else
      assert forall i :: 1 <= i < |inputs| ==> inputs[i] == inputs[1..][i - 1];
      IsPositive(inputs[0]) && AllPositive(inputs[1..])
  }

  /** A positive finite number. */
  predicate FinitePositive(x: Num) {
    x.Finite? && x.value > 0.0
  }

  /** Lines 138-152: a run needs distance, duration and cadence finite and
      positive; a ride needs all three finite and only distance and duration
      positive. A rejected submit (the alert) yields None. The record is built
      with the clock readings `date` and `now`. */
  function BuildWorkout(form: FormInput, coord: Coord, date: CalendarDate, now: nat): (r: Option<Workout>)
    ensures form.kind == Running ==>
      (r.Some? <==> FinitePositive(form.distance) && FinitePositive(form.duration) && FinitePositive(form.cadence))
    ensures form.kind == Cycling ==>
      (r.Some? <==> FinitePositive(form.distance) && FinitePositive(form.duration) && IsFinite(form.elevation))
    ensures r.Some? ==>
      var w := r.value;
      && TypeOf(w) == form.kind && w.id == IdOf(now) && w.date == date && w.coord == coord
      && w.distance == form.distance && w.duration == form.duration
      && w.description == Description(form.kind, date)
      && (form.kind == Running ==> w.metrics.cadence == form.cadence)
      && (form.kind == Cycling ==> w.metrics.elevationGain == form.elevation)
      && Consistent(w)
  {
    match form.kind
    case Running =>
      RunningInputs(form.distance, form.duration, form.cadence);
      if !ValidInputs([form.distance, form.duration, form.cadence])
         || !AllPositive([form.distance, form.duration, form.cadence]) then None
      else Some(NewRunning(coord, form.distance, form.duration, form.cadence, date, now))
    case Cycling =>
      CyclingInputs(form.distance, form.duration, form.elevation);
      if !ValidInputs([form.distance, form.duration, form.elevation])
         || !AllPositive([form.distance, form.duration]) then None
      else Some(NewCycling(coord, form.distance, form.duration, form.elevation, date, now))
  }

  /** Line 140: the check on a run's three inputs. */
  lemma RunningInputs(distance: Num, duration: Num, cadence: Num)
    ensures ValidInputs([distance, duration, cadence]) && AllPositive([distance, duration, cadence])
      <==> FinitePositive(distance) && FinitePositive(duration) && FinitePositive(cadence)
  {
    var inputs := [distance, duration, cadence];
    assert inputs[0] == distance && inputs[1] == duration && inputs[2] == cadence;
  }

  /** Line 148: the check on a ride's inputs; the elevation gain need only be
      finite. */
  lemma CyclingInputs(distance: Num, duration: Num, elevation: Num)
    ensures ValidInputs([distance, duration, elevation]) && AllPositive([distance, duration])
      <==> FinitePositive(distance) && FinitePositive(duration) && IsFinite(elevation)
  {
    var inputs := [distance, duration, elevation];
    assert inputs[0] == distance && inputs[1] == duration && inputs[2] == elevation;
    assert [distance, duration][0] == distance && [distance, duration][1] == duration;
  }

  /** A record that passed validation is consistent and has positive finite
      distance and duration. */
  lemma BuiltIsValid(form: FormInput, coord: Coord, date: CalendarDate, now: nat)
    requires BuildWorkout(form, coord, date, now).Some?
    ensures var w := BuildWorkout(form, coord, date, now).value;
      Consistent(w) && FinitePositive(w.distance) && FinitePositive(w.duration)
  {
  }

  /** Hence an accepted run's pace is duration / distance and an accepted
      ride's speed is distance / (duration / 60), as exact quotients. */
  lemma BuiltMetrics(form: FormInput, coord: Coord, date: CalendarDate, now: nat, w: Workout)
    requires BuildWorkout(form, coord, date, now) == Some(w)
    ensures w.metrics.RunningMetrics? ==> w.metrics.pace == Finite(w.duration.value / w.distance.value)
    ensures w.metrics.CyclingMetrics? ==> w.metrics.speed == Finite(w.distance.value * 60.0 / w.duration.value)
  {
    BuiltIsValid(form, coord, date, now);
    ConsistentMetrics(w);
  }

  /** Appending an accepted record keeps a consistent list consistent. */
  lemma AppendBuiltKeepsConsistent(ws: seq<Workout>, form: FormInput, coord: Coord, date: CalendarDate, now: nat)
    requires AllConsistent(ws) && BuildWorkout(form, coord, date, now).Some?
    ensures AllConsistent(ws + [BuildWorkout(form, coord, date, now).value])
  {
    BuiltIsValid(form, coord, date, now);
    AppendKeepsConsistent(ws, BuildWorkout(form, coord, date, now).value);
  }

  /** A ride with a descent (negative elevation gain) is accepted; a run with
      zero cadence is not. */
  lemma ValidationExamples(coord: Coord, date: CalendarDate, now: nat)
    ensures BuildWorkout(FormInput(Cycling, Finite(20.0), Finite(60.0), NaN, Finite(-50.0)), coord, date, now).Some?
    ensures BuildWorkout(FormInput(Running, Finite(5.0), Finite(25.0), Finite(0.0), NaN), coord, date, now).None?
  {
  }
}
