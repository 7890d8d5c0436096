/**
 * The soft objective of build_and_solve (solver.py:97-107): one penalty
 * term y[(course id, t)] per course entry and per slot t outside the
 * preferred slots of the course's faculty member; the solver minimises how
 * many of them are true.
 */
module Objective {
  import opened Problem
  import opened Counting
  import opened Grid
  import opened Constraints
  import opened Extraction
  import opened Guarantees

  /**
   * The preferred slots of the first faculty entry with id `fid`, or none
   * when no entry has that id (solver.py:102).
   */
  function PreferredOf(faculty: seq<Faculty>, fid: FacultyId): seq<int>
  {
    if |faculty| == 0 then []
    else if faculty[0].id == fid then faculty[0].preferred
    else PreferredOf(faculty[1..], fid)
  }

  /** The lookup takes the first entry with the id and falls back to no preference. */
  lemma {:induction false} PreferredOfFirst(faculty: seq<Faculty>, fid: FacultyId, k: int)
    requires 0 <= k <= |faculty|
    requires forall j | 0 <= j < k :: faculty[j].id != fid
    ensures k < |faculty| && faculty[k].id == fid ==> PreferredOf(faculty, fid) == faculty[k].preferred
    ensures k == |faculty| ==> PreferredOf(faculty, fid) == []
  {
    if k > 0 {
      assert forall j | 0 <= j < k - 1 :: faculty[1..][j] == faculty[j + 1];
      PreferredOfFirst(faculty[1..], fid, k - 1);
    }
  }

  /** The penalty terms of course entry c for the slots below m, by ascending slot. */
  function CourseTerms(c: Course, pref: seq<int>, m: int): (terms: seq<(CourseId, int)>)
    decreases m
  {
    if m <= 0 then [] else
      CourseTerms(c, pref, m - 1) + (if m - 1 !in pref then [(c.id, m - 1)] else [])
  }

  /** The penalty terms of the first n course entries, in course order. */
  function Terms(courses: seq<Course>, faculty: seq<Faculty>, slots: int, n: int): (terms: seq<(CourseId, int)>)
    requires 0 <= n <= |courses|
  {
    if n == 0 then [] else
      Terms(courses, faculty, slots, n - 1) + CourseTerms(courses[n - 1], PreferredOf(faculty, courses[n - 1].faculty), slots)
  }

  function InSolution(y: Assignment): ((CourseId, int)) -> bool
  {
    (v: (CourseId, int)) => v in y
  }

  /** sum(penalty_terms) under solution y: the number of terms y makes true. */
  function Penalty(terms: seq<(CourseId, int)>, y: Assignment): (r: nat)
    ensures r <= |terms|
  {
    CountIf(terms, InSolution(y))
  }

  /** A row scheduled outside its faculty member's preferred slots. */
  function NotPreferred(faculty: seq<Faculty>): Row -> bool
  {
    (r: Row) => r.timeslot !in PreferredOf(faculty, r.facultyId)
  }

  lemma NotPreferredRow(faculty: seq<Faculty>, c: Course, t: int, slot: Timeslot)
    ensures NotPreferred(faculty)(MakeRow(c, t, slot)) == (t !in PreferredOf(faculty, c.faculty))
  {
  }

  /** The loop that fills penalty_terms (solver.py:98-105). */
  method PenaltyTerms(courses: seq<Course>, faculty: seq<Faculty>, slots: int) returns (terms: seq<(CourseId, int)>)
    ensures terms == Terms(courses, faculty, slots, |courses|)
  {
    terms := [];
    var i := 0;
    while i < |courses|
      invariant 0 <= i <= |courses|
      invariant terms == Terms(courses, faculty, slots, i)
    {
      terms := AppendCourseTerms(courses[i], PreferredOf(faculty, courses[i].faculty), slots, terms);
      i := i + 1;
    }
  }

  /** One turn of the outer loop of solver.py:99-105: the terms of course entry c, by ascending slot. */
  method AppendCourseTerms(c: Course, pref: seq<int>, slots: int, terms0: seq<(CourseId, int)>)
    returns (terms: seq<(CourseId, int)>)
    ensures terms == terms0 + CourseTerms(c, pref, slots)
  {
    terms := terms0;
    assert terms0 + CourseTerms(c, pref, 0) == terms0;
    var t := 0;
    while t < slots
      invariant 0 <= t <= (if slots > 0 then slots else 0)
      invariant terms == terms0 + CourseTerms(c, pref, t)
    {
      if t !in pref {
        terms := terms + [(c.id, t)];
      } else {
        assert CourseTerms(c, pref, t + 1) == CourseTerms(c, pref, t) + [];
      }
      t := t + 1;
    }
    assert CourseTerms(c, pref, t) == CourseTerms(c, pref, slots);
  }

  /** Course entry c has a term for slot t below m exactly when t is not preferred. */
  lemma {:induction false} CourseTermsMembership(c: Course, pref: seq<int>, m: int, v: (CourseId, int))
    ensures v in CourseTerms(c, pref, m) <==> v.0 == c.id && 0 <= v.1 < m && v.1 !in pref
    decreases m
  {
    if m > 0 {
      CourseTermsMembership(c, pref, m - 1, v);
    }
  }

  /**
   * Every term of penalty_terms is y[(cid, t)] for a slot t of range(T) and
   * an entry of course id cid whose faculty member does not prefer t.
   */
  lemma TermsSound(courses: seq<Course>, faculty: seq<Faculty>, slots: int, n: int, v: (CourseId, int))
    requires 0 <= n <= |courses|
    requires v in Terms(courses, faculty, slots, n)
    ensures 0 <= v.1 < slots
    ensures exists i | 0 <= i < n :: courses[i].id == v.0 && v.1 !in PreferredOf(faculty, courses[i].faculty)
  {
    var i := TermOrigin(courses, faculty, slots, n, v);
    assert courses[i].id == v.0 && v.1 !in PreferredOf(faculty, courses[i].faculty);
  }

  /** The course entry whose loop turn put term v into the first n entries' terms. */
  lemma {:induction false} TermOrigin(courses: seq<Course>, faculty: seq<Faculty>, slots: int, n: int,
                                      v: (CourseId, int)) returns (i: int)
    requires 0 <= n <= |courses|
    requires v in Terms(courses, faculty, slots, n)
    ensures 0 <= v.1 < slots && 0 <= i < n
    ensures courses[i].id == v.0 && v.1 !in PreferredOf(faculty, courses[i].faculty)
  {
    var c := courses[n - 1];
    var pref := PreferredOf(faculty, c.faculty);
    var prev := Terms(courses, faculty, slots, n - 1);
    assert Terms(courses, faculty, slots, n) == prev + CourseTerms(c, pref, slots);
    CourseTermsMembership(c, pref, slots, v);
    if v in CourseTerms(c, pref, slots) {
      i := n - 1;
    } else {
      assert v in prev;
      i := TermOrigin(courses, faculty, slots, n - 1, v);
    }
  }

  /** Each entry gets a term for every slot of range(T) its faculty member does not prefer. */
  lemma {:induction false} TermsComplete(courses: seq<Course>, faculty: seq<Faculty>, slots: int, n: int, i: int, t: int)
    requires 0 <= i < n <= |courses| && 0 <= t < slots
    requires t !in PreferredOf(faculty, courses[i].faculty)
    ensures (courses[i].id, t) in Terms(courses, faculty, slots, n)
  {
    var c := courses[n - 1];
    if i == n - 1 {
      CourseTermsMembership(c, PreferredOf(faculty, c.faculty), slots, (courses[i].id, t));
    } else {
      TermsComplete(courses, faculty, slots, n - 1, i, t);
    }
  }

  /** One slot more adds one true term exactly when y schedules c there outside `pref`. */
  lemma CourseTermsStep(c: Course, pref: seq<int>, m: int, y: Assignment)
    requires m > 0
    ensures CountIf(CourseTerms(c, pref, m), InSolution(y)) ==
      CountIf(CourseTerms(c, pref, m - 1), InSolution(y)) + (if (c.id, m - 1) in y && m - 1 !in pref then 1 else 0)
  {
    var newTerms := if m - 1 !in pref then [(c.id, m - 1)] else [];
    CountIfAppend(CourseTerms(c, pref, m - 1), newTerms, InSolution(y));
    if m - 1 in pref {
      assert CountIf(newTerms, InSolution(y)) == 0;
    }
  }

  /** One slot more adds course i's row there to its rows outside the preferred slots, when it is one. */
  lemma NotPreferredRowsStep(times: seq<Timeslot>, slots: int, courses: seq<Course>, faculty: seq<Faculty>,
                             y: Assignment, i: int, m: int)
    requires FitsSlots(times, slots) && 0 <= i < |courses| && 0 < m <= slots
    ensures ValidSources(times, courses, CourseSources(courses, y, i, m - 1))
    ensures ValidSources(times, courses, CourseSources(courses, y, i, m))
    ensures CountIf(RowsOf(times, courses, CourseSources(courses, y, i, m)), NotPreferred(faculty)) ==
      CountIf(RowsOf(times, courses, CourseSources(courses, y, i, m - 1)), NotPreferred(faculty)) +
      (if (courses[i].id, m - 1) in y && m - 1 !in PreferredOf(faculty, courses[i].faculty) then 1 else 0)
  {
    CourseRowsStep(times, slots, courses, y, i, m, NotPreferred(faculty));
    NotPreferredRow(faculty, courses[i], m - 1, times[m - 1]);
  }

  /** Course i's terms true under y match its rows outside the preferred slots, slot by slot. */
  lemma {:induction false} CourseTermsCount(times: seq<Timeslot>, slots: int, courses: seq<Course>, faculty: seq<Faculty>,
                                            y: Assignment, i: int, m: int)
    requires FitsSlots(times, slots) && 0 <= i < |courses| && m <= slots
    ensures ValidSources(times, courses, CourseSources(courses, y, i, m))
    ensures CountIf(CourseTerms(courses[i], PreferredOf(faculty, courses[i].faculty), m), InSolution(y)) ==
      CountIf(RowsOf(times, courses, CourseSources(courses, y, i, m)), NotPreferred(faculty))
    decreases m
  {
    if m > 0 {
      var pref := PreferredOf(faculty, courses[i].faculty);
      CourseTermsCount(times, slots, courses, faculty, y, i, m - 1);
      CourseTermsStep(courses[i], pref, m, y);
      NotPreferredRowsStep(times, slots, courses, faculty, y, i, m);
    }
  }

  /** The terms of the first n entries true under y match their rows outside the preferred slots. */
  lemma {:induction false} TermsCount(times: seq<Timeslot>, slots: int, courses: seq<Course>, faculty: seq<Faculty>,
                                      y: Assignment, n: int)
    requires FitsSlots(times, slots) && 0 <= n <= |courses|
    ensures ValidSources(times, courses, Sources(courses, y, slots, n))
    ensures CountIf(Terms(courses, faculty, slots, n), InSolution(y)) ==
      CountIf(RowsOf(times, courses, Sources(courses, y, slots, n)), NotPreferred(faculty))
  {
    if n == 0 {
      NoRows(times, slots, courses, y, NotPreferred(faculty));
    } else {
      TermsCount(times, slots, courses, faculty, y, n - 1);
      CountStep(times, slots, courses, y, n, NotPreferred(faculty));
      CourseTermsCount(times, slots, courses, faculty, y, n - 1, slots);
      CountIfAppend(Terms(courses, faculty, slots, n - 1),
        CourseTerms(courses[n - 1], PreferredOf(faculty, courses[n - 1].faculty), slots), InSolution(y));
    }
  }

  /**
   * The minimised sum is the number of returned rows whose slot their
   * faculty member does not prefer, for any solution y (solver.py:97-107).
   */
  lemma PenaltyCountsRows(data: Data, y: Assignment)
    ensures Penalty(Terms(data.courses, data.faculty, Slots(data), |data.courses|), y) ==
      CountIf(Timetable(data, y), NotPreferred(data.faculty))
  {
    TermsCount(WeekGrid(data.days, data.periodsPerDay), Slots(data), data.courses, data.faculty, y, |data.courses|);
  }

  /**
   * Under a valid schedule the penalty is at most sum(sessions_per_week),
   * and it is 0 exactly when every row sits at a preferred slot.
   */
  lemma PenaltyBounds(data: Data, y: Assignment)
    requires ValidSchedule(data, y)
    ensures Penalty(Terms(data.courses, data.faculty, Slots(data), |data.courses|), y) <= SumSessions(data.courses)
    ensures Penalty(Terms(data.courses, data.faculty, Slots(data), |data.courses|), y) == 0 <==>
      forall k | 0 <= k < |Timetable(data, y)| ::
        Timetable(data, y)[k].timeslot in PreferredOf(data.faculty, Timetable(data, y)[k].facultyId)
  {
    PenaltyCountsRows(data, y);
    RowCount(data, y);
    CountIfExtremes(Timetable(data, y), NotPreferred(data.faculty));
  }
}
