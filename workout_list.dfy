/** Operations on the workout list that `App` keeps in `#workout`:
    `findIndex` + `splice` for delete (Mapty/script.js:299-300), the `forEach`
    edit of matching records (367-381) and the sort with its four comparators
    (409-423). */
module WorkoutList {
  import opened Numbers
  import opened Workouts

  // ----------------------------------------------------------------- delete

  /** `ws.findIndex(work => work.id === id)`: the first index with that id, or -1. */
  function FindIndex(ws: seq<Workout>, id: string): (k: int)
    ensures -1 <= k < |ws|
    ensures k >= 0 ==> ws[k].id == id && forall j :: 0 <= j < k ==> ws[j].id != id
    ensures k == -1 <==> forall j :: 0 <= j < |ws| ==> ws[j].id != id
  {
    if ws == [] then -1
    else if ws[0].id == id then 0
    else
      var k := FindIndex(ws[1..], id);
      if k == -1 then -1 else k + 1
  }

  /** `s.splice(start, 1)` on the list (ECMA-262 `Array.prototype.splice`): a
      negative start counts from the end and is clamped at 0, a start at or past
      the end removes nothing. */
  function SpliceOne(s: seq<Workout>, start: int): (r: seq<Workout>)
    ensures 0 <= start < |s| ==> r == s[..start] + s[start + 1..]
    ensures -|s| <= start < 0 ==> r == s[..|s| + start] + s[|s| + start + 1..]
    ensures start < -|s| && s != [] ==> r == s[1..]
    ensures start >= |s| || s == [] ==> r == s
    ensures multiset(r) <= multiset(s)
  {
    var len := |s|;
    var actualStart := if start < 0 then (if len + start < 0 then 0 else len + start)
                       else if start < len then start else len;
    var deleteCount := if 1 < len - actualStart then 1 else len - actualStart;
    assert s == s[..actualStart] + s[actualStart..actualStart + deleteCount] + s[actualStart + deleteCount..];
    s[..actualStart] + s[actualStart + deleteCount..]
  }

  /** Lines 299-300: splice at the index `findIndex` found. A non-empty list
      always loses exactly one of its records, whether the id is there or not. */
  function DeleteById(ws: seq<Workout>, id: string): (r: seq<Workout>)
    ensures |r| == if ws == [] then 0 else |ws| - 1
    ensures multiset(r) <= multiset(ws)
  {
    SpliceOne(ws, FindIndex(ws, id))
  }

  /** When the id is present, delete removes exactly the first record with that
      id and keeps the others in their order. */
  lemma DeleteFirstMatch(ws: seq<Workout>, id: string, k: nat)
    requires k < |ws| && ws[k].id == id
    requires forall j :: 0 <= j < k ==> ws[j].id != id
    ensures DeleteById(ws, id) == ws[..k] + ws[k + 1..]
    ensures |DeleteById(ws, id)| == |ws| - 1
    ensures multiset(DeleteById(ws, id)) + multiset{ws[k]} == multiset(ws)
  {
    assert FindIndex(ws, id) == k;
    assert DeleteById(ws, id) == ws[..k] + ws[k + 1..];
    RemoveAtCount(ws, k);
  }

  lemma RemoveAtCount(s: seq<Workout>, k: nat)
    requires k < |s|
    ensures multiset(s[..k] + s[k + 1..]) + multiset{s[k]} == multiset(s)
  {
    assert s == s[..k] + [s[k]] + s[k + 1..];
  }

  /** When the id is absent, `findIndex` gives -1 and `splice(-1, 1)` removes
      the LAST record. */
  lemma DeleteAbsent(ws: seq<Workout>, id: string)
    requires forall j :: 0 <= j < |ws| ==> ws[j].id != id
    ensures DeleteById(ws, id) == if ws == [] then [] else ws[..|ws| - 1]
  {
  }

  /** Adding a record with a fresh id and deleting that id gives back the list. */
  lemma AddThenDelete(ws: seq<Workout>, w: Workout)
    requires forall j :: 0 <= j < |ws| ==> ws[j].id != w.id
    ensures DeleteById(ws + [w], w.id) == ws
  {
    DeleteFirstMatch(ws + [w], w.id, |ws|);
  }

  /** Ids are not unique: when an older record already has the new record's id,
      deleting the new record's list item deletes the older record instead. */
  lemma AddThenDeleteDuplicate(ws: seq<Workout>, w: Workout, k: nat)
    requires k < |ws| && ws[k].id == w.id
    ensures DeleteById(ws + [w], w.id) == DeleteById(ws, w.id) + [w]
  {
    var first := FindIndex(ws, w.id);
    assert 0 <= first;
    DeleteFirstMatch(ws, w.id, first);
    DeleteFirstMatch(ws + [w], w.id, first);
    assert (ws + [w])[..first] == ws[..first];
    assert (ws + [w])[first + 1..] == ws[first + 1..] + [w];
  }

  // ------------------------------------------------------------------- edit

  /** The `forEach` loop of `_editWorkout` when no record throws: every record
      whose id matches is edited, the list keeps its length, and every record
      with another id is left as it is. */
  function EditById(ws: seq<Workout>, id: string, distance: Num, duration: Num,
                    cadence: Num, elevation: Num): (r: seq<Workout>)
    ensures |r| == |ws|
    ensures forall i :: 0 <= i < |ws| && ws[i].id != id ==> r[i] == ws[i]
  {
    seq(|ws|, i requires 0 <= i < |ws| =>
      if ws[i].id == id then Edit(ws[i], distance, duration, cadence, elevation) else ws[i])
  }

  /** Position by position, an edit keeps the id, type, coordinate, date and
      description; a matching record gets the new distance, duration and
      cadence or elevation gain, and a pace or speed that agrees with them. */
  lemma EditByIdFields(ws: seq<Workout>, id: string, distance: Num, duration: Num,
                       cadence: Num, elevation: Num, i: nat)
    requires i < |ws|
    ensures var r := EditById(ws, id, distance, duration, cadence, elevation);
      && r[i].id == ws[i].id && TypeOf(r[i]) == TypeOf(ws[i]) && r[i].coord == ws[i].coord
      && r[i].date == ws[i].date && r[i].description == ws[i].description
      && (ws[i].id == id ==>
           && r[i].distance == distance && r[i].duration == duration && Consistent(r[i])
           && (r[i].metrics.RunningMetrics? ==> r[i].metrics.cadence == cadence)
           && (r[i].metrics.CyclingMetrics? ==> r[i].metrics.elevationGain == elevation))
  {
  }

  /** With no matching id the list is unchanged. */
  lemma EditByIdAbsent(ws: seq<Workout>, id: string, distance: Num, duration: Num,
                       cadence: Num, elevation: Num)
    requires forall j :: 0 <= j < |ws| ==> ws[j].id != id
    ensures EditById(ws, id, distance, duration, cadence, elevation) == ws
  {
  }

  /** Running the same edit twice (one Enter key press reaching a handler that
      was registered twice, line 255) gives the same list as running it once. */
  lemma EditByIdIdempotent(ws: seq<Workout>, id: string, distance: Num, duration: Num,
                           cadence: Num, elevation: Num)
    ensures var r := EditById(ws, id, distance, duration, cadence, elevation);
      EditById(r, id, distance, duration, cadence, elevation) == r
  {
    var r := EditById(ws, id, distance, duration, cadence, elevation);
    forall i | 0 <= i < |ws|
      ensures EditById(r, id, distance, duration, cadence, elevation)[i] == r[i]
    {
      EditIdempotent(ws[i], distance, duration, cadence, elevation);
    }
  }

  /** The first index whose record has the id but is not of type t, or -1. */
  function FirstMismatch(ws: seq<Workout>, id: string, t: WorkoutType): (k: int)
    ensures -1 <= k < |ws|
    ensures k >= 0 ==> ws[k].id == id && TypeOf(ws[k]) != t
    ensures k >= 0 ==> forall j :: 0 <= j < k ==> !(ws[j].id == id && TypeOf(ws[j]) != t)
    ensures k == -1 <==> forall j :: 0 <= j < |ws| ==> !(ws[j].id == id && TypeOf(ws[j]) != t)
  {
    if ws == [] then -1
    else if ws[0].id == id && TypeOf(ws[0]) != t then 0
    else
      var k := FirstMismatch(ws[1..], id, t);
      if k == -1 then -1 else k + 1
  }

  /** The list after the edit loop, and whether it threw. */
  datatype Edited = Edited(workouts: seq<Workout>, threw: bool)

  /** The list once the edit loop has visited its first n records without
      throwing: those with the id are edited, the others are as they were. */
  function EditPrefix(ws: seq<Workout>, id: string, distance: Num, duration: Num,
                      cadence: Num, elevation: Num, n: nat): (r: seq<Workout>)
    requires n <= |ws|
    ensures |r| == |ws|
    ensures forall j :: n <= j < |ws| ==> r[j] == ws[j]
  {
    seq(|ws|, j requires 0 <= j < |ws| =>
      if j < n && ws[j].id == id then Edit(ws[j], distance, duration, cadence, elevation) else ws[j])
  }

  /** The whole `forEach` loop of `_editWorkout`, run from a list item of type
      t. The item only has an input for its own type's extra value (lines
      197-235), so the first matching record of the other type throws a
      TypeError when that value is read (line 375 or 379), after its distance,
      duration and pace or speed were written. The records before it are
      edited, the ones after it are not. */
  function EditForItem(ws: seq<Workout>, t: WorkoutType, id: string, distance: Num, duration: Num,
                       cadence: Num, elevation: Num): (r: Edited)
    ensures |r.workouts| == |ws|
    ensures r.threw <==> exists j :: 0 <= j < |ws| && ws[j].id == id && TypeOf(ws[j]) != t
    ensures !r.threw ==> r.workouts == EditById(ws, id, distance, duration, cadence, elevation)
  {
    var k := FirstMismatch(ws, id, t);
    if k < 0 then Edited(EditById(ws, id, distance, duration, cadence, elevation), false)
    else
      Edited(EditPrefix(ws, id, distance, duration, cadence, elevation, k)
               [k := EditBeforeTypeError(ws[k], distance, duration)], true)
  }

  /** One step of the edit loop: visiting record n edits it when its id
      matches. */
  lemma EditPrefixStep(ws: seq<Workout>, id: string, distance: Num, duration: Num,
                       cadence: Num, elevation: Num, n: nat)
    requires n < |ws|
    ensures ws[n].id == id ==>
      EditPrefix(ws, id, distance, duration, cadence, elevation, n + 1)
      == EditPrefix(ws, id, distance, duration, cadence, elevation, n)
           [n := Edit(ws[n], distance, duration, cadence, elevation)]
    ensures ws[n].id != id ==>
      EditPrefix(ws, id, distance, duration, cadence, elevation, n + 1)
      == EditPrefix(ws, id, distance, duration, cadence, elevation, n)
  {
  }

  /** Having visited every record, the loop has done what EditById describes. */
  lemma EditPrefixAll(ws: seq<Workout>, id: string, distance: Num, duration: Num,
                      cadence: Num, elevation: Num)
    ensures EditPrefix(ws, id, distance, duration, cadence, elevation, |ws|)
      == EditById(ws, id, distance, duration, cadence, elevation)
  {
  }

  /** When the k-th record is the first matching record of the other type, the
      loop stops there: the records before k are edited, record k has only its
      distance, duration and pace or speed written, and the records after k
      are as they were. */
  lemma EditForItemThrows(ws: seq<Workout>, t: WorkoutType, id: string, distance: Num, duration: Num,
                          cadence: Num, elevation: Num, k: nat, r: Edited)
    requires k < |ws| && ws[k].id == id && TypeOf(ws[k]) != t
    requires forall j :: 0 <= j < k ==> !(ws[j].id == id && TypeOf(ws[j]) != t)
    requires r == EditForItem(ws, t, id, distance, duration, cadence, elevation)
    ensures |r.workouts| == |ws|
    ensures r.threw
    ensures forall j :: 0 <= j < k ==> r.workouts[j] == EditById(ws, id, distance, duration, cadence, elevation)[j]
    ensures r.workouts[k] == EditBeforeTypeError(ws[k], distance, duration)
    ensures forall j :: k < j < |ws| ==> r.workouts[j] == ws[j]
  {
    assert FirstMismatch(ws, id, t) == k;
  }

  /** An edit from the item of a record whose id no record of the other type
      shares runs to the end and edits every match. */
  lemma EditForOwnItem(ws: seq<Workout>, id: string, distance: Num, duration: Num,
                       cadence: Num, elevation: Num, k: nat)
    requires k < |ws| && ws[k].id == id
    requires forall j :: 0 <= j < |ws| && ws[j].id == id ==> TypeOf(ws[j]) == TypeOf(ws[k])
    ensures var r := EditForItem(ws, TypeOf(ws[k]), id, distance, duration, cadence, elevation);
      !r.threw && r.workouts == EditById(ws, id, distance, duration, cadence, elevation)
  {
  }

  /** Running the edit loop twice from the same item (the handler registered
      twice, line 255) gives the same list as running it once, also when it
      throws: the second run stops at the same record and rewrites the same
      values. */
  lemma EditForItemIdempotent(ws: seq<Workout>, t: WorkoutType, id: string, distance: Num, duration: Num,
                              cadence: Num, elevation: Num)
    ensures var r := EditForItem(ws, t, id, distance, duration, cadence, elevation).workouts;
      EditForItem(r, t, id, distance, duration, cadence, elevation).workouts == r
  {
    var k := FirstMismatch(ws, id, t);
    if k < 0 {
      EditFinishedIdempotent(ws, t, id, distance, duration, cadence, elevation);
    } else {
      EditThrownIdempotent(ws, t, id, distance, duration, cadence, elevation, k);
    }
  }

  lemma EditFinishedIdempotent(ws: seq<Workout>, t: WorkoutType, id: string, distance: Num, duration: Num,
                               cadence: Num, elevation: Num)
    requires FirstMismatch(ws, id, t) < 0
    ensures var r := EditForItem(ws, t, id, distance, duration, cadence, elevation).workouts;
      EditForItem(r, t, id, distance, duration, cadence, elevation).workouts == r
  {
    var r := EditById(ws, id, distance, duration, cadence, elevation);
    EditByIdIdempotent(ws, id, distance, duration, cadence, elevation);
    forall j | 0 <= j < |r| ensures !(r[j].id == id && TypeOf(r[j]) != t) {
      EditByIdFields(ws, id, distance, duration, cadence, elevation, j);
    }
  }

  lemma EditThrownIdempotent(ws: seq<Workout>, t: WorkoutType, id: string, distance: Num, duration: Num,
                             cadence: Num, elevation: Num, k: nat)
    requires FirstMismatch(ws, id, t) == k
    ensures var r := EditForItem(ws, t, id, distance, duration, cadence, elevation).workouts;
      EditForItem(r, t, id, distance, duration, cadence, elevation).workouts == r
  {
    var e := EditForItem(ws, t, id, distance, duration, cadence, elevation);
    EditForItemThrows(ws, t, id, distance, duration, cadence, elevation, k, e);
    var r := e.workouts;
    forall j | 0 <= j < k ensures !(r[j].id == id && TypeOf(r[j]) != t) {
      EditByIdFields(ws, id, distance, duration, cadence, elevation, j);
    }
    var e2 := EditForItem(r, t, id, distance, duration, cadence, elevation);
    EditForItemThrows(r, t, id, distance, duration, cadence, elevation, k, e2);
    forall j | 0 <= j < |r| ensures e2.workouts[j] == r[j] {
      if j < k {
        EditByIdAt(ws, id, distance, duration, cadence, elevation, j);
        EditByIdAt(r, id, distance, duration, cadence, elevation, j);
        EditIdempotent(ws[j], distance, duration, cadence, elevation);
      }
    }
  }

  lemma EditByIdAt(ws: seq<Workout>, id: string, distance: Num, duration: Num,
                   cadence: Num, elevation: Num, j: nat)
    requires j < |ws|
    ensures EditById(ws, id, distance, duration, cadence, elevation)[j]
      == if ws[j].id == id then Edit(ws[j], distance, duration, cadence, elevation) else ws[j]
  {
  }

  // ------------------------------------------------------------------- sort

  datatype SortField = ByDistance | ByDuration
  datatype Direction = Ascending | Descending
  datatype Ordering = Ordering(field: SortField, direction: Direction)

  function Key(w: Workout, f: SortField): Num {
    match f
    case ByDistance => w.distance
    case ByDuration => w.duration
  }

  /** The comparator, as `sort` reads its sign: `(a, b) => a.key - b.key`
      ascending, `(a, b) => b.key - a.key` descending. */
  function Cmp(a: Workout, b: Workout, o: Ordering): (r: int)
    ensures -1 <= r <= 1
    ensures Key(a, o.field) == Key(b, o.field) ==> r == 0
  {
    match o.direction
    case Ascending => Compare(Key(a, o.field), Key(b, o.field))
    case Descending => Compare(Key(b, o.field), Key(a, o.field))
  }

  /** Lines 412-423: the option value picks the comparator. The labels are
      inverted ("h-l" sorts ascending), and every value other than the first
      three, the empty one included, sorts by duration descending. */
  function OrderFor(selected: string): (r: Ordering)
    ensures r.field == ByDistance <==> selected == "distance-h-l" || selected == "distance-l-h"
    ensures r.direction == Ascending <==> selected == "distance-h-l" || selected == "duration-h-l"
  {
    if selected == "distance-h-l" then Ordering(ByDistance, Ascending)
    else if selected == "distance-l-h" then Ordering(ByDistance, Descending)
    else if selected == "duration-h-l" then Ordering(ByDuration, Ascending)
    else Ordering(ByDuration, Descending)
  }

  /** Sorting by comparator: the element goes before the first element it does
      not compare greater than. Applied from the back of the list, an element
      lands before every element that compares equal to it and came after it,
      so the sort is stable, as ECMA-262 requires of `Array.prototype.sort`. */
  function Insert(x: Workout, t: seq<Workout>, o: Ordering): (r: seq<Workout>)
    ensures multiset(r) == multiset(t) + multiset{x}
    ensures |r| == |t| + 1
  {
    if t == [] then [x]
    else if Cmp(x, t[0], o) <= 0 then [x] + t
    else
      assert t == [t[0]] + t[1..];
      [t[0]] + Insert(x, t[1..], o)
  }

  /** `ws.sort(comparator)`: a permutation of the list. */
  function SortBy(ws: seq<Workout>, o: Ordering): (r: seq<Workout>)
    ensures multiset(r) == multiset(ws)
    ensures |r| == |ws|
  {
    if ws == [] then []
    else
      assert ws == [ws[0]] + ws[1..];
      Insert(ws[0], SortBy(ws[1..], o), o)
  }

  /** The records of s whose key under field f is v, in their order in s. */
  function WithKey(s: seq<Workout>, f: SortField, v: Num): seq<Workout> {
    if s == [] then []
    else if Key(s[0], f) == v then [s[0]] + WithKey(s[1..], f, v)
    else WithKey(s[1..], f, v)
  }

  predicate NoNaNKeys(s: seq<Workout>, f: SortField) {
    forall i :: 0 <= i < |s| ==> !Key(s[i], f).NaN?
  }

  /** Every pair is in comparator order. */
  predicate SortedByCmp(s: seq<Workout>, o: Ordering) {
    forall i, j :: 0 <= i < j < |s| ==> Cmp(s[i], s[j], o) <= 0
  }

  /** Keys in ascending or descending order: no earlier key is above
      (ascending) or below (descending) a later one. */
  predicate KeysOrdered(s: seq<Workout>, o: Ordering) {
    forall i, j :: 0 <= i < j < |s| ==>
      if o.direction == Ascending then !Less(Key(s[j], o.field), Key(s[i], o.field))
      else !Less(Key(s[i], o.field), Key(s[j], o.field))
  }

  /** Without NaN keys, comparator order is the order of the keys. */
  lemma CmpMeansOrder(a: Workout, b: Workout, o: Ordering)
    requires !Key(a, o.field).NaN? && !Key(b, o.field).NaN?
    ensures Cmp(a, b, o) <= 0 <==>
      if o.direction == Ascending then !Less(Key(b, o.field), Key(a, o.field))
      else !Less(Key(a, o.field), Key(b, o.field))
    ensures Cmp(a, b, o) > 0 ==> Cmp(b, a, o) <= 0
  {
    CompareIsOrder(Key(a, o.field), Key(b, o.field));
    CompareIsOrder(Key(b, o.field), Key(a, o.field));
    LessIsStrictTotalOrder(Key(a, o.field), Key(b, o.field), Key(a, o.field));
  }

  lemma CmpTransitive(a: Workout, b: Workout, c: Workout, o: Ordering)
    requires !Key(a, o.field).NaN? && !Key(b, o.field).NaN? && !Key(c, o.field).NaN?
    requires Cmp(a, b, o) <= 0 && Cmp(b, c, o) <= 0
    ensures Cmp(a, c, o) <= 0
  {
    CmpMeansOrder(a, b, o);
    CmpMeansOrder(b, c, o);
    CmpMeansOrder(a, c, o);
    var ka, kb, kc := Key(a, o.field), Key(b, o.field), Key(c, o.field);
    LessIsStrictTotalOrder(ka, kb, kc);
    LessIsStrictTotalOrder(kc, kb, ka);
    LessIsStrictTotalOrder(ka, kc, kb);
    LessIsStrictTotalOrder(kc, ka, kb);
    LessIsStrictTotalOrder(kb, ka, kc);
    LessIsStrictTotalOrder(kb, kc, ka);
  }

  lemma {:induction false} InsertSorted(x: Workout, t: seq<Workout>, o: Ordering)
    requires NoNaNKeys(t, o.field) && !Key(x, o.field).NaN?
    requires SortedByCmp(t, o)
    ensures SortedByCmp(Insert(x, t, o), o)
  {
    if t == [] {
    } else if Cmp(x, t[0], o) <= 0 {
      forall j | 0 <= j < |t| ensures Cmp(x, t[j], o) <= 0 {
        if j > 0 { CmpTransitive(x, t[0], t[j], o); }
      }
      ConsSorted(x, t, o);
    } else {
      var rest := Insert(x, t[1..], o);
      assert NoNaNKeys(t[1..], o.field);
      assert SortedByCmp(t[1..], o);
      InsertSorted(x, t[1..], o);
      CmpMeansOrder(x, t[0], o);
      forall j | 0 <= j < |rest| ensures Cmp(t[0], rest[j], o) <= 0 {
        assert rest[j] in multiset(rest);
        if rest[j] != x {
          assert rest[j] in multiset(t[1..]);
          var m :| 0 <= m < |t[1..]| && t[1..][m] == rest[j];
          assert t[m + 1] == rest[j];
        }
      }
      ConsSorted(t[0], rest, o);
    }
  }

  /** A record that compares at most 0 with every record of a sorted list can
      go in front of it. */
  lemma ConsSorted(y: Workout, s: seq<Workout>, o: Ordering)
    requires SortedByCmp(s, o)
    requires forall j :: 0 <= j < |s| ==> Cmp(y, s[j], o) <= 0
    ensures SortedByCmp([y] + s, o)
  {
    var r := [y] + s;
    forall i, j | 0 <= i < j < |r| ensures Cmp(r[i], r[j], o) <= 0 {
      assert r[j] == s[j - 1];
      if i > 0 { assert r[i] == s[i - 1]; }
    }
  }

  /** Without NaN keys, the sorted list has its keys in the order asked for. */
  lemma {:induction false} SortOrdered(ws: seq<Workout>, o: Ordering)
    requires NoNaNKeys(ws, o.field)
    ensures SortedByCmp(SortBy(ws, o), o)
    ensures KeysOrdered(SortBy(ws, o), o)
  {
    var r := SortBy(ws, o);
    if ws != [] {
      assert NoNaNKeys(ws[1..], o.field);
      SortOrdered(ws[1..], o);
      var t := SortBy(ws[1..], o);
      forall j | 0 <= j < |t| ensures !Key(t[j], o.field).NaN? {
        assert t[j] in multiset(ws[1..]);
        var m :| 0 <= m < |ws[1..]| && ws[1..][m] == t[j];
      }
      InsertSorted(ws[0], t, o);
    }
    forall i, j | 0 <= i < j < |r|
      ensures if o.direction == Ascending then !Less(Key(r[j], o.field), Key(r[i], o.field))
              else !Less(Key(r[i], o.field), Key(r[j], o.field))
    {
      assert r[i] in multiset(ws) && r[j] in multiset(ws);
      var mi :| 0 <= mi < |ws| && ws[mi] == r[i];
      var mj :| 0 <= mj < |ws| && ws[mj] == r[j];
      CmpMeansOrder(r[i], r[j], o);
    }
  }

  /** Inserting x adds x in front of the records with x's key and leaves the
      records with any other key in their order. A comparator result above
      zero means different keys (equal keys compare 0, NaN included), so no
      NaN assumption is needed. */
  lemma {:induction false} InsertWithKey(x: Workout, t: seq<Workout>, o: Ordering, v: Num)
    ensures WithKey(Insert(x, t, o), o.field, v)
         == if Key(x, o.field) == v then [x] + WithKey(t, o.field, v) else WithKey(t, o.field, v)
  {
    if t != [] && Cmp(x, t[0], o) > 0 {
      InsertWithKey(x, t[1..], o, v);
      var r := [t[0]] + Insert(x, t[1..], o);
      assert r[1..] == Insert(x, t[1..], o);
    } else if t != [] {
      var r := [x] + t;
      assert r[1..] == t;
    }
  }

  /** Stability: for every key value, the records with that key appear in the
      sorted list in the order they had before. */
  lemma {:induction false} SortStable(ws: seq<Workout>, o: Ordering, v: Num)
    ensures WithKey(SortBy(ws, o), o.field, v) == WithKey(ws, o.field, v)
  {
    if ws != [] {
      SortStable(ws[1..], o, v);
      InsertWithKey(ws[0], SortBy(ws[1..], o), o, v);
    }
  }

  lemma {:induction false} WithKeyMember(s: seq<Workout>, f: SortField, v: Num, x: Workout)
    requires x in WithKey(s, f, v)
    ensures x in s && Key(x, f) == v
  {
    if s != [] {
      if Key(s[0], f) == v && x == s[0] {
        assert x == s[0];
      } else {
        WithKeyMember(s[1..], f, v, x);
      }
    }
  }

  /** A record of a list shows up among the records of its own key. */
  lemma WithKeyHasHead(s: seq<Workout>, f: SortField)
    requires s != []
    ensures WithKey(s, f, Key(s[0], f)) == [s[0]] + WithKey(s[1..], f, Key(s[0], f))
  {
  }

  /** In a list in comparator order the first record compares at most 0 with
      every record of the list. */
  lemma FirstIsLeast(s: seq<Workout>, o: Ordering, x: Workout)
    requires SortedByCmp(s, o) && x in s
    ensures Cmp(s[0], x, o) <= 0
  {
    var i :| 0 <= i < |s| && s[i] == x;
  }

  /** Lists that agree on every key's records and are in comparator order
      start with the same record. */
  lemma SameHead(a: seq<Workout>, b: seq<Workout>, o: Ordering)
    requires a != [] && b != []
    requires NoNaNKeys(a, o.field) && NoNaNKeys(b, o.field)
    requires SortedByCmp(a, o) && SortedByCmp(b, o)
    requires WithKey(a, o.field, Key(a[0], o.field)) == WithKey(b, o.field, Key(a[0], o.field))
    requires WithKey(a, o.field, Key(b[0], o.field)) == WithKey(b, o.field, Key(b[0], o.field))
    ensures a[0] == b[0]
  {
    var f := o.field;
    var ka := Key(a[0], f);
    SameHeadKey(a, b, o);
    WithKeyHasHead(a, f);
    WithKeyHasHead(b, f);
    assert a[0] == WithKey(a, f, ka)[0] == WithKey(b, f, ka)[0] == b[0];
  }

  lemma SameHeadKey(a: seq<Workout>, b: seq<Workout>, o: Ordering)
    requires a != [] && b != []
    requires !Key(a[0], o.field).NaN? && !Key(b[0], o.field).NaN?
    requires SortedByCmp(a, o) && SortedByCmp(b, o)
    requires a[0] in WithKey(b, o.field, Key(a[0], o.field))
    requires b[0] in WithKey(a, o.field, Key(b[0], o.field))
    ensures Key(a[0], o.field) == Key(b[0], o.field)
  {
    var f := o.field;
    var ka, kb := Key(a[0], f), Key(b[0], f);
    WithKeyMember(b, f, ka, a[0]);
    WithKeyMember(a, f, kb, b[0]);
    FirstIsLeast(b, o, a[0]);
    FirstIsLeast(a, o, b[0]);
    CmpMeansOrder(a[0], b[0], o);
    CmpMeansOrder(b[0], a[0], o);
    LessIsStrictTotalOrder(ka, kb, ka);
  }

  /** Dropping the same first record keeps the lists in agreement on every key. */
  lemma SameTails(a: seq<Workout>, b: seq<Workout>, f: SortField, v: Num)
    requires a != [] && b != [] && a[0] == b[0]
    requires WithKey(a, f, v) == WithKey(b, f, v)
    ensures WithKey(a[1..], f, v) == WithKey(b[1..], f, v)
  {
    if Key(a[0], f) == v {
      var x, y := WithKey(a, f, v), WithKey(b, f, v);
      assert x[1..] == WithKey(a[1..], f, v);
      assert y[1..] == WithKey(b[1..], f, v);
    }
  }

  /** Two lists in comparator order, without NaN keys, that agree on the
      records of every key value are the same list. */
  lemma {:induction false} SortedFiltersDetermine(a: seq<Workout>, b: seq<Workout>, o: Ordering)
    requires NoNaNKeys(a, o.field) && NoNaNKeys(b, o.field)
    requires SortedByCmp(a, o) && SortedByCmp(b, o)
    requires forall v :: WithKey(a, o.field, v) == WithKey(b, o.field, v)
    ensures a == b
    decreases |a| + |b|
  {
    var f := o.field;
    if a == [] && b != [] {
      WithKeyHasHead(b, f);
      assert false;
    } else if a != [] && b == [] {
      WithKeyHasHead(a, f);
      assert false;
    } else if a != [] {
      SameHead(a, b, o);
      forall v ensures WithKey(a[1..], f, v) == WithKey(b[1..], f, v) {
        SameTails(a, b, f, v);
      }
      assert NoNaNKeys(a[1..], f) && NoNaNKeys(b[1..], f);
      assert SortedByCmp(a[1..], o) && SortedByCmp(b[1..], o);
      SortedFiltersDetermine(a[1..], b[1..], o);
      assert a == [a[0]] + a[1..] && b == [b[0]] + b[1..];
    }
  }

  /** Without NaN keys there is only one stable sort of a list: any result
      that is in comparator order and keeps the relative order of each key's
      records is SortBy's. So the model agrees with every conforming
      implementation of `Array.prototype.sort`. */
  lemma SortUnique(ws: seq<Workout>, r: seq<Workout>, o: Ordering)
    requires NoNaNKeys(ws, o.field) && multiset(r) == multiset(ws)
    requires SortedByCmp(r, o)
    requires forall v :: WithKey(r, o.field, v) == WithKey(ws, o.field, v)
    ensures r == SortBy(ws, o)
  {
    var s := SortBy(ws, o);
    SortOrdered(ws, o);
    forall v ensures WithKey(r, o.field, v) == WithKey(s, o.field, v) {
      SortStable(ws, o, v);
    }
    forall i | 0 <= i < |r| ensures !Key(r[i], o.field).NaN? {
      assert r[i] in multiset(ws);
      var m :| 0 <= m < |ws| && ws[m] == r[i];
    }
    forall i | 0 <= i < |s| ensures !Key(s[i], o.field).NaN? {
      assert s[i] in multiset(ws);
      var m :| 0 <= m < |ws| && ws[m] == s[i];
    }
    SortedFiltersDetermine(r, s, o);
  }

  // ------------------------------------------------------------ consistency

  /** Every list operation keeps each record's pace or speed in agreement with
      its distance and duration: appending a consistent record, deleting,
      editing (whether the loop runs to the end or throws) and sorting. */
  lemma ListOperationsKeepConsistent(ws: seq<Workout>, w: Workout, id: string, t: WorkoutType,
                                     distance: Num, duration: Num, cadence: Num, elevation: Num,
                                     o: Ordering)
    requires AllConsistent(ws) && Consistent(w)
    ensures AllConsistent(ws + [w])
    ensures AllConsistent(DeleteById(ws, id))
    ensures AllConsistent(EditById(ws, id, distance, duration, cadence, elevation))
    ensures AllConsistent(EditForItem(ws, t, id, distance, duration, cadence, elevation).workouts)
    ensures AllConsistent(SortBy(ws, o))
  {
    AppendKeepsConsistent(ws, w);
    SubMultisetConsistent(ws, DeleteById(ws, id));
    SubMultisetConsistent(ws, SortBy(ws, o));
    EditForItemKeepsConsistent(ws, t, id, distance, duration, cadence, elevation);
  }

  lemma EditForItemKeepsConsistent(ws: seq<Workout>, t: WorkoutType, id: string, distance: Num,
                                   duration: Num, cadence: Num, elevation: Num)
    requires AllConsistent(ws)
    ensures AllConsistent(EditForItem(ws, t, id, distance, duration, cadence, elevation).workouts)
  {
    var k := FirstMismatch(ws, id, t);
    if k >= 0 {
      EditForItemThrows(ws, t, id, distance, duration, cadence, elevation, k,
                        EditForItem(ws, t, id, distance, duration, cadence, elevation));
    }
  }

  /** A list whose records all come from a consistent list is consistent. */
  lemma SubMultisetConsistent(ws: seq<Workout>, r: seq<Workout>)
    requires AllConsistent(ws) && multiset(r) <= multiset(ws)
    ensures AllConsistent(r)
  {
    forall j | 0 <= j < |r| ensures Consistent(r[j]) {
      assert r[j] in multiset(r);
      var m :| 0 <= m < |ws| && ws[m] == r[j];
    }
  }
}
