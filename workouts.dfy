/** The workout records: `Workout` and its two kinds `Running` and `Cycling`
    (Mapty/script.js:14-59). A record is a value; the fields the source updates
    after construction (distance, duration, the kind's extra value and derived
    metric) are rewritten by Edit, which yields the updated record. */
module Workouts {
  import opened Numbers
  import opened Decimal

  datatype WorkoutType = Running | Cycling

  /** `[lat, lng]` from the map click */
  datatype Coord = Coord(lat: real, lng: real)

  /** The month index (`getMonth()`, 0-based) */
  type MonthIndex = m: int | 0 <= m < 12

  /** What the record's `date` yields in local time: `getMonth()` and `getDate()` */
  datatype CalendarDate = CalendarDate(month: MonthIndex, day: nat)

  /** The kind-specific fields: cadence and pace of a run, elevation gain and
      speed of a ride. */
  datatype Metrics =
    | RunningMetrics(cadence: Num, pace: Num)
    | CyclingMetrics(elevationGain: Num, speed: Num)

  datatype Workout = Workout(
    id: string,
    date: CalendarDate,
    coord: Coord,
    distance: Num,   // km
    duration: Num,   // min
    description: string,
    metrics: Metrics)

  /** The record's `type` field */
  function TypeOf(w: Workout): WorkoutType {
    if w.metrics.RunningMetrics? then Running else Cycling
  }

  /** The string stored in `type` */
  function TypeName(t: WorkoutType): string {
    match t
    case Running => "running"
    case Cycling => "cycling"
  }

  const MonthNames: seq<string> :=
    ["January", "February", "March", "April", "May", "June", "July",
     "August", "September", "October", "November", "December"]

  function ToUpper(c: char): char {
    if 'a' <= c <= 'z' then (c as int - 32) as char else c
  }

  /** `s[0].toUpperCase() + s.slice(1)` */
  function CapitalizeFirst(s: string): (r: string)
    requires s != []
    ensures |r| == |s| && r[0] == ToUpper(s[0]) && r[1..] == s[1..]
  {
    [ToUpper(s[0])] + s[1..]
  }

  /** `_setDescription`: "<Type> on <Month> <day>", the capitalised type name
      and " on " followed by the month's name and the day. */
  function Description(t: WorkoutType, date: CalendarDate): (r: string)
    ensures |r| > 11 && r[..11] == (if t == Running then "Running on " else "Cycling on ")
    ensures r[11..] == MonthDay(date)
  {
    LabelShape(t);
    Label(t) + MonthDay(date)
  }

  /** The part of the description before the month: "Running on " or "Cycling on " */
  function Label(t: WorkoutType): string {
    CapitalizeFirst(TypeName(t)) + " on "
  }

  /** The part of the description from the month on: "March 5" */
  function MonthDay(date: CalendarDate): string {
    MonthNames[date.month] + " " + NatToString(date.day)
  }

  /** `(Date.now() + '').slice(-10)`: the last ten digits of the clock
      reading, or all of them when there are fewer. */
  function IdOf(now: nat): (r: string)
    ensures |r| == if |NatToString(now)| < 10 then |NatToString(now)| else 10
    ensures r == NatToString(now)[|NatToString(now)| - |r|..]
    ensures IsDigits(r)
  {
    Slice(NatToString(now), -10)
  }

  /** `calcPace`: minutes per km */
  function Pace(distance: Num, duration: Num): (r: Num)
    ensures IsFinite(distance) && IsFinite(duration) && distance.value != 0.0 ==>
      r == Finite(duration.value / distance.value)
    ensures distance.NaN? || duration.NaN? ==> r.NaN?
  {
    Div(duration, distance)
  }

  /** `calcSpeed`: km per hour, the duration being in minutes */
  function Speed(distance: Num, duration: Num): (r: Num)
    ensures IsFinite(distance) && IsFinite(duration) && duration.value != 0.0 ==>
      r == Finite(distance.value * 60.0 / duration.value)
    ensures distance.NaN? || duration.NaN? ==> r.NaN?
  {
    Div(distance, Div(duration, Finite(60.0)))
  }

  /** `new Running(coord, distance, duration, cadence)` with the clock readings
      `new Date()` and `Date.now()` given as `date` and `now` */
  function NewRunning(coord: Coord, distance: Num, duration: Num, cadence: Num,
                      date: CalendarDate, now: nat): (r: Workout)
    ensures TypeOf(r) == Running && r.id == IdOf(now) && r.date == date && r.coord == coord
    ensures r.distance == distance && r.duration == duration
    ensures r.description == Description(Running, date)
    ensures r.metrics.cadence == cadence && Consistent(r)
  {
    Workout(IdOf(now), date, coord, distance, duration, Description(Running, date),
            RunningMetrics(cadence, Pace(distance, duration)))
  }

  /** `new Cycling(coord, distance, duration, elevationGain)` */
  function NewCycling(coord: Coord, distance: Num, duration: Num, elevationGain: Num,
                      date: CalendarDate, now: nat): (r: Workout)
    ensures TypeOf(r) == Cycling && r.id == IdOf(now) && r.date == date && r.coord == coord
    ensures r.distance == distance && r.duration == duration
    ensures r.description == Description(Cycling, date)
    ensures r.metrics.elevationGain == elevationGain && Consistent(r)
  {
    Workout(IdOf(now), date, coord, distance, duration, Description(Cycling, date),
            CyclingMetrics(elevationGain, Speed(distance, duration)))
  }

  /** The derived metric agrees with the current distance and duration. */
  predicate Consistent(w: Workout) {
    match w.metrics
    case RunningMetrics(_, pace) => pace == Pace(w.distance, w.duration)
    case CyclingMetrics(_, speed) => speed == Speed(w.distance, w.duration)
  }

  /** The field updates of one matching record in `_editWorkout`: distance and
      duration set, pace or speed recomputed from the new values, cadence or
      elevation gain set; the record's type decides which extra value is used.
      Id, type, coordinate, date and description stay as they were; in
      particular the description is not recomputed. */
  function Edit(w: Workout, distance: Num, duration: Num, cadence: Num, elevation: Num): (r: Workout)
    ensures r.id == w.id && TypeOf(r) == TypeOf(w) && r.coord == w.coord
    ensures r.date == w.date && r.description == w.description
    ensures r.distance == distance && r.duration == duration
    ensures TypeOf(w) == Running ==> r.metrics.cadence == cadence
    ensures TypeOf(w) == Cycling ==> r.metrics.elevationGain == elevation
    ensures Consistent(r)
  {
    var metrics := match w.metrics
      case RunningMetrics(_, _) => RunningMetrics(cadence, Pace(distance, duration))
      case CyclingMetrics(_, _) => CyclingMetrics(elevation, Speed(distance, duration));
    w.(distance := distance, duration := duration, metrics := metrics)
  }

  /** What one matching record has been given when `_editWorkout` throws on it:
      the list item is of the other type, so reading the item's missing cadence
      or elevation input fails after distance, duration and pace or speed were
      written. The extra value keeps its old value. */
  function EditBeforeTypeError(w: Workout, distance: Num, duration: Num): (r: Workout)
    ensures r.id == w.id && TypeOf(r) == TypeOf(w) && r.coord == w.coord
    ensures r.date == w.date && r.description == w.description
    ensures r.distance == distance && r.duration == duration
    ensures TypeOf(w) == Running ==> r.metrics.cadence == w.metrics.cadence
    ensures TypeOf(w) == Cycling ==> r.metrics.elevationGain == w.metrics.elevationGain
    ensures Consistent(r)
  {
    var metrics := match w.metrics
      case RunningMetrics(cadence, _) => RunningMetrics(cadence, Pace(distance, duration))
      case CyclingMetrics(elevation, _) => CyclingMetrics(elevation, Speed(distance, duration));
    w.(distance := distance, duration := duration, metrics := metrics)
  }

  /** Every record of the list is consistent. */
  predicate AllConsistent(ws: seq<Workout>) {
    forall j :: 0 <= j < |ws| ==> Consistent(ws[j])
  }

  /** Appending a consistent record keeps a consistent list consistent. */
  lemma AppendKeepsConsistent(ws: seq<Workout>, w: Workout)
    requires AllConsistent(ws) && Consistent(w)
    ensures AllConsistent(ws + [w])
  {
  }

  // ---------------------------------------------------------------- metrics

  /** A consistent record with positive finite distance and duration has a
      finite pace of duration / distance min/km, or a finite speed of
      distance * 60 / duration km/h. */
  lemma ConsistentMetrics(w: Workout)
    requires Consistent(w)
    requires IsFinite(w.distance) && IsPositive(w.distance) && IsFinite(w.duration) && IsPositive(w.duration)
    ensures w.metrics.RunningMetrics? ==> w.metrics.pace == Finite(w.duration.value / w.distance.value)
    ensures w.metrics.CyclingMetrics? ==> w.metrics.speed == Finite(w.distance.value * 60.0 / w.duration.value)
  {
  }

  /** A run of 5 km in 25 min has pace 5 min/km. */
  lemma RunningExample(date: CalendarDate, now: nat)
    ensures NewRunning(Coord(51.5, -0.1), Finite(5.0), Finite(25.0), Finite(180.0), date, now).metrics
            == RunningMetrics(Finite(180.0), Finite(5.0))
  {
  }

  // ------------------------------------------------------------------- edit

  /** Repeating an edit with the same values changes nothing more. */
  lemma EditIdempotent(w: Workout, distance: Num, duration: Num, cadence: Num, elevation: Num)
    ensures var r := Edit(w, distance, duration, cadence, elevation);
      Edit(r, distance, duration, cadence, elevation) == r
  {
  }

  /** Editing the run above to 10 km, 50 min and cadence 190 keeps pace 5 and
      sets cadence 190. */
  lemma EditExample(date: CalendarDate, now: nat)
    ensures var w := NewRunning(Coord(51.5, -0.1), Finite(5.0), Finite(25.0), Finite(180.0), date, now);
      Edit(w, Finite(10.0), Finite(50.0), Finite(190.0), Finite(0.0)).metrics
        == RunningMetrics(Finite(190.0), Finite(5.0))
  {
  }

  // ------------------------------------------------------------ description

  lemma DescriptionExample()
    ensures Description(Running, CalendarDate(2, 5)) == "Running on March 5"
  {
  }

  lemma LabelShape(t: WorkoutType)
    ensures Label(t) == (if t == Running then "Running on " else "Cycling on ")
  {
  }

  predicate IsLetters(s: string) {
    forall i :: 0 <= i < |s| ==> 'A' <= s[i] <= 'Z' || 'a' <= s[i] <= 'z'
  }

  lemma MonthNamesAreDistinctWords(m: MonthIndex, n: MonthIndex)
    ensures IsLetters(MonthNames[m])
    ensures m != n ==> MonthNames[m] != MonthNames[n]
  {
  }

  /** Index of the first space in u, or |u| when there is none. */
  function FirstSpace(u: string): nat {
    if u == [] || u[0] == ' ' then 0 else 1 + FirstSpace(u[1..])
  }

  lemma {:induction false} FirstSpaceAfterWord(a: string, s: string)
    requires IsLetters(a)
    ensures FirstSpace(a + " " + s) == |a|
  {
    if a != [] {
      assert (a + " " + s)[1..] == a[1..] + " " + s;
      FirstSpaceAfterWord(a[1..], s);
    }
  }

  /** "<Month> <digits>" determines the month and the digits. */
  lemma MonthDayInjective(m: MonthIndex, s: string, n: MonthIndex, t: string)
    requires MonthNames[m] + " " + s == MonthNames[n] + " " + t
    ensures m == n && s == t
  {
    var a, b := MonthNames[m], MonthNames[n];
    var u := a + " " + s;
    MonthNamesAreDistinctWords(m, n);
    MonthNamesAreDistinctWords(n, m);
    FirstSpaceAfterWord(a, s);
    FirstSpaceAfterWord(b, t);
    assert a == u[..|a|] == b;
    assert s == u[|a| + 1..] == t;
  }

  /** The description determines the type and the calendar date: two records
      with the same description were made on the same day and are of the
      same type. */
  lemma DescriptionInjective(t1: WorkoutType, d1: CalendarDate, t2: WorkoutType, d2: CalendarDate)
    requires Description(t1, d1) == Description(t2, d2)
    ensures t1 == t2 && d1 == d2
  {
    LabelShape(t1);
    LabelShape(t2);
    ConcatSplit(Label(t1), MonthDay(d1), Label(t2), MonthDay(d2));
    MonthDayInjective(d1.month, NatToString(d1.day), d2.month, NatToString(d2.day));
    NatToStringInjective(d1.day, d2.day);
  }

  lemma ConcatSplit(a1: string, b1: string, a2: string, b2: string)
    requires |a1| == |a2| && a1 + b1 == a2 + b2
    ensures a1 == a2 && b1 == b2
  {
    assert a1 == (a1 + b1)[..|a1|];
    assert b1 == (a1 + b1)[|a1|..];
  }

  // --------------------------------------------------------------------- id

  /** The id is a string of at most ten digits that denotes the clock reading
      modulo 10^10. */
  lemma IdShape(now: nat)
    ensures |IdOf(now)| <= 10 && IsDigits(IdOf(now))
    ensures DecValue(IdOf(now)) == now % Pow10(10)
  {
    var s := NatToString(now);
    NatToStringValue(now);
    if |s| >= 10 {
      SuffixValue(s, 10);
    } else {
      NatToStringLength(now, 9);
      assert IdOf(now) == s;
      ModUnique(now, Pow10(10), 0, now);
    }
  }

  /** Below 10^10 ms the id is the whole decimal string of the clock reading. */
  lemma IdOfShortClock(now: nat)
    requires now < Pow10(10)
    ensures IdOf(now) == NatToString(now)
  {
    NatToStringLength(now, 10);
  }

  /** Ids are not unique: two clock readings 10^10 ms (about 115.7 days)
      apart, both with at least ten digits, give the same id. */
  lemma IdRepeats(now: nat)
    requires now >= Pow10(9)
    ensures IdOf(now + Pow10(10)) == IdOf(now)
  {
    var later := now + Pow10(10);
    IdLengthTen(now);
    IdLengthTen(later);
    IdShape(now);
    IdShape(later);
    ModAddPeriod(now, Pow10(10));
    DigitsInjective(IdOf(now), IdOf(later));
  }

  /** From 10^9 ms on the id has all ten digits. */
  lemma IdLengthTen(now: nat)
    requires now >= Pow10(9)
    ensures |IdOf(now)| == 10
  {
    NatToStringLength(now, 9);
  }
}
