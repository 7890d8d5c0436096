/**
 * The output rows of build_and_solve (solver.py:123-140): one row per
 * variable y[(course id, t)] the solution makes true, course by course in
 * input order and, inside a course, by ascending slot.
 */
module Extraction {
  import opened Problem
  import opened Grid
  import opened Constraints

  datatype Row = Row(courseId: CourseId, courseName: string, facultyId: FacultyId, timeslot: int, day: string, period: int)

  /** Lexicographic order on (course index, slot). */
  predicate Before(a: (int, int), b: (int, int))
  {
    a.0 < b.0 || (a.0 == b.0 && a.1 < b.1)
  }

  /** The (course index, slot) pairs of course i scheduled below slot m, by ascending slot. */
  function CourseSources(courses: seq<Course>, y: Assignment, i: int, m: int): (src: seq<(int, int)>)
    requires 0 <= i < |courses|
    ensures |src| == CountSlots(y, courses[i].id, m)
    ensures forall k | 0 <= k < |src| :: src[k].0 == i && 0 <= src[k].1 < m && (courses[i].id, src[k].1) in y
    decreases m
  {
    if m <= 0 then [] else
      CourseSources(courses, y, i, m - 1) + (if (courses[i].id, m - 1) in y then [(i, m - 1)] else [])
  }

  /** Inside a course, the slots ascend strictly. */
  lemma {:induction false} CourseSourcesAscending(courses: seq<Course>, y: Assignment, i: int, m: int)
    requires 0 <= i < |courses|
    ensures forall k, l | 0 <= k < l < |CourseSources(courses, y, i, m)| ::
      CourseSources(courses, y, i, m)[k].1 < CourseSources(courses, y, i, m)[l].1
    decreases m
  {
    if m > 0 {
      CourseSourcesAscending(courses, y, i, m - 1);
      var prev := CourseSources(courses, y, i, m - 1);
      var src := CourseSources(courses, y, i, m);
      assert src == prev + (if (courses[i].id, m - 1) in y then [(i, m - 1)] else []);
      forall k, l | 0 <= k < l < |src| ensures src[k].1 < src[l].1 {
        assert src[k] == prev[k];
        if l == |prev| {
          assert src[l] == (i, m - 1);
          assert prev[k].1 < m - 1;
        } else {
          assert src[l] == prev[l];
          assert prev[k].1 < prev[l].1;
        }
      }
    }
  }

  /** The scheduled (course index, slot) pairs of the first n courses, in lexicographic order. */
  function Sources(courses: seq<Course>, y: Assignment, slots: int, n: int): (src: seq<(int, int)>)
    requires 0 <= n <= |courses|
    ensures forall k | 0 <= k < |src| :: 0 <= src[k].0 < n && 0 <= src[k].1 < slots
  {
    if n == 0 then [] else
      var prev := Sources(courses, y, slots, n - 1);
      var block := CourseSources(courses, y, n - 1, slots);
      var src := prev + block;
      assert forall k | 0 <= k < |prev| :: src[k] == prev[k];
      assert forall k | |prev| <= k < |src| :: src[k] == block[k - |prev|];
      src
  }

  /** Every pair is a variable the solution makes true. */
  lemma {:induction false} SourcesScheduled(courses: seq<Course>, y: Assignment, slots: int, n: int)
    requires 0 <= n <= |courses|
    ensures forall k | 0 <= k < |Sources(courses, y, slots, n)| ::
      (courses[Sources(courses, y, slots, n)[k].0].id, Sources(courses, y, slots, n)[k].1) in y
  {
    if n > 0 {
      SourcesScheduled(courses, y, slots, n - 1);
      var prev := Sources(courses, y, slots, n - 1);
      var block := CourseSources(courses, y, n - 1, slots);
      var src := Sources(courses, y, slots, n);
      assert src == prev + block;
      forall k | 0 <= k < |src| ensures (courses[src[k].0].id, src[k].1) in y {
        if k < |prev| {
          assert src[k] == prev[k];
        } else {
          assert src[k] == block[k - |prev|];
        }
      }
    }
  }

  /** The pairs come in lexicographic order: by course position, then by slot. */
  lemma {:induction false} SourcesOrdered(courses: seq<Course>, y: Assignment, slots: int, n: int)
    requires 0 <= n <= |courses|
    ensures forall k, l | 0 <= k < l < |Sources(courses, y, slots, n)| ::
      Before(Sources(courses, y, slots, n)[k], Sources(courses, y, slots, n)[l])
  {
    if n > 0 {
      SourcesOrdered(courses, y, slots, n - 1);
      CourseSourcesAscending(courses, y, n - 1, slots);
      var prev := Sources(courses, y, slots, n - 1);
      var block := CourseSources(courses, y, n - 1, slots);
      var src := Sources(courses, y, slots, n);
      assert src == prev + block;
      forall k, l | 0 <= k < l < |src| ensures Before(src[k], src[l]) {
        if l < |prev| {
          assert src[k] == prev[k] && src[l] == prev[l];
        } else if k < |prev| {
          assert src[k] == prev[k] && src[l] == block[l - |prev|];
        } else {
          assert src[k] == block[k - |prev|] && src[l] == block[l - |prev|];
        }
      }
    }
  }

  /** The row of course c at slot t, its day and period read off the grid entry (solver.py:131-139). */
  function MakeRow(c: Course, t: int, slot: Timeslot): Row
  {
    Row(c.id, c.name, c.faculty, t, slot.day, slot.period)
  }

  /** Every pair names a course position and a slot of the grid `times`. */
  ghost predicate ValidSources(times: seq<Timeslot>, courses: seq<Course>, src: seq<(int, int)>)
  {
    forall k | 0 <= k < |src| :: 0 <= src[k].0 < |courses| && 0 <= src[k].1 < |times|
  }

  /** A grid with one entry per slot of range(slots). */
  ghost predicate FitsSlots(times: seq<Timeslot>, slots: int)
  {
    |times| == if slots > 0 then slots else 0
  }

  lemma SourcesValid(times: seq<Timeslot>, courses: seq<Course>, y: Assignment, slots: int, n: int)
    requires FitsSlots(times, slots) && 0 <= n <= |courses|
    ensures ValidSources(times, courses, Sources(courses, y, slots, n))
  {
  }

  /** The rows for a list of (course index, slot) pairs, in the same order. */
  function RowsOf(times: seq<Timeslot>, courses: seq<Course>, src: seq<(int, int)>): (rows: seq<Row>)
    requires ValidSources(times, courses, src)
    ensures |rows| == |src|
  {
    if |src| == 0 then [] else
      var n := |src| - 1;
      assert forall k | 0 <= k < n :: src[..n][k] == src[k];
      RowsOf(times, courses, src[..n]) + [MakeRow(courses[src[n].0], src[n].1, times[src[n].1])]
  }

  /** Row k is built from the k-th (course index, slot) pair. */
  lemma {:induction false} RowsOfAt(times: seq<Timeslot>, courses: seq<Course>, src: seq<(int, int)>)
    requires ValidSources(times, courses, src)
    ensures forall k | 0 <= k < |src| ::
      RowsOf(times, courses, src)[k] == MakeRow(courses[src[k].0], src[k].1, times[src[k].1])
    decreases |src|
  {
    if |src| > 0 {
      var n := |src| - 1;
      assert forall k | 0 <= k < n :: src[..n][k] == src[k];
      RowsOfAt(times, courses, src[..n]);
    }
  }

  /** The rows build_and_solve returns for solution y. */
  ghost function Rows(days: seq<string>, ppd: int, courses: seq<Course>, y: Assignment): seq<Row>
  {
    RowsOf(WeekGrid(days, ppd), courses, Sources(courses, y, NumSlots(|days|, ppd), |courses|))
  }

  lemma {:induction false} RowsOfSnoc(times: seq<Timeslot>, courses: seq<Course>, src: seq<(int, int)>, s: (int, int))
    requires ValidSources(times, courses, src)
    requires 0 <= s.0 < |courses| && 0 <= s.1 < |times|
    ensures ValidSources(times, courses, src + [s])
    ensures RowsOf(times, courses, src + [s]) == RowsOf(times, courses, src) + [MakeRow(courses[s.0], s.1, times[s.1])]
  {
    assert forall k | 0 <= k < |src| :: (src + [s])[k] == src[k];
    assert (src + [s])[..|src|] == src;
  }

  lemma SourcesStep(courses: seq<Course>, y: Assignment, slots: int, i: int, t: int)
    requires 0 <= i < |courses|
    requires t == (if slots > 0 then slots else 0)
    ensures Sources(courses, y, slots, i + 1) == Sources(courses, y, slots, i) + CourseSources(courses, y, i, t)
  {
  }

  /** `times_map` holds entry t of `times` under key t, for every entry. */
  ghost predicate IsGridMap(times: seq<Timeslot>, timesMap: map<int, Timeslot>)
  {
    forall t | 0 <= t < |times| :: t in timesMap && timesMap[t] == times[t]
  }

  /** `times = timeslot_map(days, ppd)` and `times_map` (solver.py:124-125). */
  method GridMap(days: seq<string>, ppd: int) returns (times: seq<Timeslot>, timesMap: map<int, Timeslot>)
    ensures times == WeekGrid(days, ppd)
    ensures IsGridMap(times, timesMap)
  {
    times := TimeslotMap(days, ppd);
    timesMap := ById(times);
    forall t | 0 <= t < |times| ensures t in timesMap && timesMap[t] == times[t] {
      ByIdOfGrid(times, t);
    }
  }

  /** The extraction loop of solver.py:124-140. */
  method ExtractRows(days: seq<string>, ppd: int, courses: seq<Course>, y: Assignment) returns (rows: seq<Row>)
    ensures rows == Rows(days, ppd, courses, y)
  {
    var slots := |days| * ppd;
    NumSlotsIsProduct(|days|, ppd);
    var times, timesMap := GridMap(days, ppd);
    rows := [];
    var i := 0;
    while i < |courses|
      invariant 0 <= i <= |courses|
      invariant rows == RowsOf(times, courses, Sources(courses, y, slots, i))
    {
      rows := AppendCourseRows(times, timesMap, slots, courses, y, i, rows);
      i := i + 1;
    }
  }

  /** One turn of the inner loop of solver.py:129-140 in terms of the pairs it visits. */
  lemma {:induction false} CourseStep(times: seq<Timeslot>, courses: seq<Course>, y: Assignment,
                                      prev: seq<(int, int)>, i: int, t: int)
    requires 0 <= i < |courses| && 0 <= t < |times|
    requires ValidSources(times, courses, prev + CourseSources(courses, y, i, t))
    ensures ValidSources(times, courses, prev + CourseSources(courses, y, i, t + 1))
    ensures RowsOf(times, courses, prev + CourseSources(courses, y, i, t + 1)) ==
      RowsOf(times, courses, prev + CourseSources(courses, y, i, t)) +
      (if (courses[i].id, t) in y then [MakeRow(courses[i], t, times[t])] else [])
  {
    var src := prev + CourseSources(courses, y, i, t);
    if (courses[i].id, t) in y {
      assert src + [(i, t)] == prev + CourseSources(courses, y, i, t + 1);
      RowsOfSnoc(times, courses, src, (i, t));
    } else {
      assert prev + CourseSources(courses, y, i, t + 1) == src;
    }
  }

  /** One turn of the inner loop of solver.py:129-140: the row of course i at slot t, if y makes it true. */
  method AppendSlotRow(times: seq<Timeslot>, timesMap: map<int, Timeslot>, courses: seq<Course>, y: Assignment,
                       ghost prev: seq<(int, int)>, i: int, t: int, rows0: seq<Row>) returns (rows: seq<Row>)
    requires IsGridMap(times, timesMap)
    requires 0 <= i < |courses| && 0 <= t < |times|
    requires ValidSources(times, courses, prev + CourseSources(courses, y, i, t))
    requires rows0 == RowsOf(times, courses, prev + CourseSources(courses, y, i, t))
    ensures ValidSources(times, courses, prev + CourseSources(courses, y, i, t + 1))
    ensures rows == RowsOf(times, courses, prev + CourseSources(courses, y, i, t + 1))
  {
    CourseStep(times, courses, y, prev, i, t);
    var c := courses[i];
    rows := rows0;
    if (c.id, t) in y {
      rows := rows + [Row(c.id, c.name, c.faculty, t, timesMap[t].day, timesMap[t].period)];
    }
  }

  /** One turn of the outer loop of solver.py:127-140: the rows of course i, by ascending slot. */
  method AppendCourseRows(times: seq<Timeslot>, timesMap: map<int, Timeslot>, slots: int,
                          courses: seq<Course>, y: Assignment, i: int, rows0: seq<Row>) returns (rows: seq<Row>)
    requires FitsSlots(times, slots) && IsGridMap(times, timesMap)
    requires 0 <= i < |courses|
    requires rows0 == RowsOf(times, courses, Sources(courses, y, slots, i))
    ensures rows == RowsOf(times, courses, Sources(courses, y, slots, i + 1))
  {
    ghost var prev := Sources(courses, y, slots, i);
    ghost var src := prev;
    assert src == prev + CourseSources(courses, y, i, 0);
    rows := rows0;
    var t := 0;
    while t < slots
      invariant 0 <= t <= |times|
      invariant src == prev + CourseSources(courses, y, i, t)
      invariant ValidSources(times, courses, src)
      invariant rows == RowsOf(times, courses, src)
    {
      rows := AppendSlotRow(times, timesMap, courses, y, prev, i, t, rows);
      src := prev + CourseSources(courses, y, i, t + 1);
      t := t + 1;
    }
    SourcesStep(courses, y, slots, i, t);
  }

  // ---------------------------------------------------------------------
  // Exactly one row per true variable

  /** A pair is listed for course i exactly when its variable is true and its slot is below m. */
  lemma {:induction false} CourseSourcesComplete(courses: seq<Course>, y: Assignment, i: int, m: int, t: int)
    requires 0 <= i < |courses|
    ensures (i, t) in CourseSources(courses, y, i, m) <==> 0 <= t < m && (courses[i].id, t) in y
    decreases m
  {
    if m > 0 {
      CourseSourcesComplete(courses, y, i, m - 1, t);
      if t == m - 1 && (courses[i].id, t) in y {
        var src := CourseSources(courses, y, i, m);
        assert src[|src| - 1] == (i, t);
      }
    }
  }

  /**
   * The pairs the extraction visits are exactly the true variables
   * y[(courses[i].id, t)] with i a course position and t a slot.
   */
  lemma {:induction false} SourcesComplete(courses: seq<Course>, y: Assignment, slots: int, n: int, i: int, t: int)
    requires 0 <= n <= |courses|
    ensures (i, t) in Sources(courses, y, slots, n) <==>
      0 <= i < n && 0 <= t < slots && (courses[i].id, t) in y
  {
    if n > 0 {
      SourcesComplete(courses, y, slots, n - 1, i, t);
      var prev := Sources(courses, y, slots, n - 1);
      var block := CourseSources(courses, y, n - 1, slots);
      assert Sources(courses, y, slots, n) == prev + block;
      CourseSourcesComplete(courses, y, n - 1, slots, t);
    }
  }

  /** The number of true variables of the first n courses, course by course. */
  function TotalScheduled(courses: seq<Course>, y: Assignment, slots: int, n: int): nat
    requires 0 <= n <= |courses|
  {
    if n == 0 then 0 else TotalScheduled(courses, y, slots, n - 1) + CountSlots(y, courses[n - 1].id, slots)
  }

  lemma {:induction false} SourcesCount(courses: seq<Course>, y: Assignment, slots: int, n: int)
    requires 0 <= n <= |courses|
    ensures |Sources(courses, y, slots, n)| == TotalScheduled(courses, y, slots, n)
  {
    if n > 0 {
      SourcesCount(courses, y, slots, n - 1);
    }
  }

  lemma RowsOfAppend(times: seq<Timeslot>, courses: seq<Course>, a: seq<(int, int)>, b: seq<(int, int)>)
    requires ValidSources(times, courses, a) && ValidSources(times, courses, b)
    ensures ValidSources(times, courses, a + b)
    ensures RowsOf(times, courses, a + b) == RowsOf(times, courses, a) + RowsOf(times, courses, b)
  {
    assert forall k | 0 <= k < |a| :: (a + b)[k] == a[k];
    assert forall k | |a| <= k < |a| + |b| :: (a + b)[k] == b[k - |a|];
    RowsOfAt(times, courses, a + b);
    RowsOfAt(times, courses, a);
    RowsOfAt(times, courses, b);
    var lhs := RowsOf(times, courses, a + b);
    var rhs := RowsOf(times, courses, a) + RowsOf(times, courses, b);
    forall k | 0 <= k < |lhs| ensures lhs[k] == rhs[k] {
      if k >= |a| {
        assert (a + b)[k] == b[k - |a|];
      }
    }
  }
}
