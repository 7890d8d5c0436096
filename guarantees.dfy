/**
 * What the rows build_and_solve returns promise about the timetable, for
 * any assignment that satisfies the hard constraints: the session counts,
 * the absence of faculty and student double-booking, availability, load
 * limits and the grid lookup of day and period.
 */
module Guarantees {
  import opened Problem
  import opened Counting
  import opened Grid
  import opened Indexes
  import opened Constraints
  import opened Extraction

  /** The rows returned for solution y of input data. */
  ghost function Timetable(data: Data, y: Assignment): seq<Row>
  {
    Rows(data.days, data.periodsPerDay, data.courses, y)
  }

  ghost function TimetableSources(data: Data, y: Assignment): seq<(int, int)>
  {
    Sources(data.courses, y, Slots(data), |data.courses|)
  }

  function SumSessions(courses: seq<Course>): int
  {
    if |courses| == 0 then 0 else SumSessions(courses[..|courses| - 1]) + courses[|courses| - 1].sessions
  }

  function OfCourse(cid: CourseId): Row -> bool
  {
    (r: Row) => r.courseId == cid
  }

  function OfFaculty(fid: FacultyId): Row -> bool
  {
    (r: Row) => r.facultyId == fid
  }

  /** No other course entry carries the id of course i. */
  ghost predicate UniqueId(courses: seq<Course>, i: int)
    requires 0 <= i < |courses|
  {
    forall j | 0 <= j < |courses| && j != i :: courses[j].id != courses[i].id
  }

  /** The ids of the entries that carry `cid`, one per entry. */
  function Named(courses: seq<Course>, cid: CourseId): (r: seq<CourseId>)
    ensures |r| <= |courses|
  {
    if |courses| == 0 then [] else
      var n := |courses| - 1;
      Named(courses[..n], cid) + (if courses[n].id == cid then [cid] else [])
  }

  /** Load over the entries carrying `cid` among the first n courses, one course at a time. */
  lemma LoadOfNamedPrefix(y: Assignment, courses: seq<Course>, cid: CourseId, n: int, slots: int)
    requires 0 < n <= |courses|
    ensures Load(y, Named(courses[..n], cid), slots) ==
      Load(y, Named(courses[..n - 1], cid), slots) + (if courses[n - 1].id == cid then CountSlots(y, cid, slots) else 0)
  {
    assert courses[..n][..n - 1] == courses[..n - 1];
    assert courses[..n][n - 1] == courses[n - 1];
    if courses[n - 1].id == cid {
      assert Named(courses[..n], cid) == Named(courses[..n - 1], cid) + [cid];
      LoadOfAppend(y, Named(courses[..n - 1], cid), cid, slots);
    } else {
      assert Named(courses[..n], cid) == Named(courses[..n - 1], cid);
    }
  }

  /** With a single entry carrying course i's id, that entry alone makes up the load. */
  lemma {:induction false} LoadOfUnique(y: Assignment, courses: seq<Course>, i: int, n: int, slots: int)
    requires 0 <= i < |courses| && 0 <= n <= |courses| && UniqueId(courses, i)
    ensures Load(y, Named(courses[..n], courses[i].id), slots) == if i < n then CountSlots(y, courses[i].id, slots) else 0
  {
    if n == 0 {
      assert courses[..0] == [];
    } else {
      LoadOfUnique(y, courses, i, n - 1, slots);
      LoadOfNamedPrefix(y, courses, courses[i].id, n, slots);
      if n - 1 != i {
        assert courses[n - 1].id != courses[i].id;
      }
    }
  }

  /**
   * Row k is the row of the k-th true variable, in course order then by
   * ascending slot, and every true variable has its row.
   */
  lemma RowsEnumerateSolution(data: Data, y: Assignment, i: int, t: int)
    ensures |Timetable(data, y)| == |TimetableSources(data, y)|
    ensures forall k | 0 <= k < |Timetable(data, y)| ::
      var s := TimetableSources(data, y)[k];
      && 0 <= s.0 < |data.courses| && 0 <= s.1 < Slots(data) && (data.courses[s.0].id, s.1) in y
      && Timetable(data, y)[k] == MakeRow(data.courses[s.0], s.1, SlotAt(data.days, data.periodsPerDay, s.1))
    ensures forall k, l | 0 <= k < l < |Timetable(data, y)| ::
      Before(TimetableSources(data, y)[k], TimetableSources(data, y)[l])
    ensures (i, t) in TimetableSources(data, y) <==>
      0 <= i < |data.courses| && 0 <= t < Slots(data) && (data.courses[i].id, t) in y
  {
    SourcesComplete(data.courses, y, Slots(data), |data.courses|, i, t);
    SourcesScheduled(data.courses, y, Slots(data), |data.courses|);
    RowsOfAt(WeekGrid(data.days, data.periodsPerDay), data.courses, TimetableSources(data, y));
    SourcesOrdered(data.courses, y, Slots(data), |data.courses|);
  }

  lemma {:induction false} TotalIsSessions(courses: seq<Course>, y: Assignment, slots: int, n: int)
    requires 0 <= n <= |courses|
    requires forall i | 0 <= i < |courses| :: CountSlots(y, courses[i].id, slots) == courses[i].sessions
    ensures TotalScheduled(courses, y, slots, n) == SumSessions(courses[..n])
  {
    if n > 0 {
      TotalIsSessions(courses, y, slots, n - 1);
      assert courses[..n][..n - 1] == courses[..n - 1];
    }
  }

  /** A valid schedule yields sum(sessions_per_week) rows. */
  lemma RowCount(data: Data, y: Assignment)
    requires ValidSchedule(data, y)
    ensures |Timetable(data, y)| == SumSessions(data.courses)
  {
    SourcesCount(data.courses, y, Slots(data), |data.courses|);
    TotalIsSessions(data.courses, y, Slots(data), |data.courses|);
    assert data.courses[..|data.courses|] == data.courses;
  }

  /** Every row sits on the grid: slot t is period t % ppd + 1 of day t / ppd. */
  lemma RowsOnGrid(data: Data, y: Assignment, k: int)
    requires 0 <= k < |Timetable(data, y)|
    ensures var r := Timetable(data, y)[k];
      && 0 <= r.timeslot < Slots(data)
      && data.periodsPerDay > 0
      && 0 <= r.timeslot / data.periodsPerDay < |data.days|
      && r.day == data.days[r.timeslot / data.periodsPerDay]
      && r.period == r.timeslot % data.periodsPerDay + 1
      && 1 <= r.period <= data.periodsPerDay
  {
    RowsEnumerateSolution(data, y, 0, 0);
    var r := Timetable(data, y)[k];
    SlotAtFields(data.days, data.periodsPerDay, r.timeslot);
  }

  /** Two rows at one slot never share a faculty member that the input lists (solver.py:78-80). */
  lemma RowsNoFacultyClash(data: Data, y: Assignment, k1: int, k2: int)
    requires ValidSchedule(data, y)
    requires 0 <= k1 < |Timetable(data, y)| && 0 <= k2 < |Timetable(data, y)| && k1 != k2
    requires Timetable(data, y)[k1].timeslot == Timetable(data, y)[k2].timeslot
    ensures Timetable(data, y)[k1].facultyId == Timetable(data, y)[k2].facultyId ==>
      Timetable(data, y)[k1].facultyId !in FacultyIds(data.faculty)
  {
    RowsEnumerateSolution(data, y, 0, 0);
    var rows, src := Timetable(data, y), TimetableSources(data, y);
    var lo, hi := if k1 < k2 then k1 else k2, if k1 < k2 then k2 else k1;
    assert Before(src[lo], src[hi]);
    var fid := rows[k1].facultyId;
    if rows[k2].facultyId == fid && fid in FacultyIds(data.faculty) {
      var kf :| 0 <= kf < |data.faculty| && data.faculty[kf].id == fid;
      FacultyNeverDoubleBooked(data, y, kf, src[k1].0, src[k2].0, rows[k1].timeslot);
    }
  }

  /**
   * Two rows at one slot for different courses are never both courses of a
   * student's enrolment list (solver.py:90-95).
   */
  lemma RowsNoStudentClash(data: Data, y: Assignment, s: int, k1: int, k2: int)
    requires ValidSchedule(data, y)
    requires 0 <= s < |data.students|
    requires 0 <= k1 < |Timetable(data, y)| && 0 <= k2 < |Timetable(data, y)|
    requires Timetable(data, y)[k1].timeslot == Timetable(data, y)[k2].timeslot
    requires Timetable(data, y)[k1].courseId != Timetable(data, y)[k2].courseId
    ensures !(Timetable(data, y)[k1].courseId in EnrolledOf(data.students, data.students[s].id) &&
              Timetable(data, y)[k2].courseId in EnrolledOf(data.students, data.students[s].id))
  {
    RowsEnumerateSolution(data, y, 0, 0);
    var rows := Timetable(data, y);
    var c1, c2 := rows[k1].courseId, rows[k2].courseId;
    if c1 in EnrolledOf(data.students, data.students[s].id) && c2 in EnrolledOf(data.students, data.students[s].id) {
      StudentNeverDoubleBooked(data, y, s, c1, c2, rows[k1].timeslot);
    }
  }

  /** No row puts a listed faculty member at one of its unavailable slots (solver.py:71-76). */
  lemma RowsRespectAvailability(data: Data, y: Assignment, k: int, f: int)
    requires ValidSchedule(data, y)
    requires 0 <= k < |Timetable(data, y)| && 0 <= f < |data.faculty|
    requires Timetable(data, y)[k].facultyId == data.faculty[f].id
    ensures Timetable(data, y)[k].timeslot !in data.faculty[f].unavailable
  {
    RowsEnumerateSolution(data, y, 0, 0);
    var src := TimetableSources(data, y);
    if Timetable(data, y)[k].timeslot in data.faculty[f].unavailable {
      UnavailableNeverScheduled(data, y, f, src[k].0, src[k].1);
    }
  }

  // ---------------------------------------------------------------------
  // Counting rows, over any grid with one entry per slot

  /** The rows of one course's block carry that course's id and faculty. */
  lemma BlockRows(times: seq<Timeslot>, slots: int, courses: seq<Course>, y: Assignment, i: int)
    requires FitsSlots(times, slots) && 0 <= i < |courses|
    ensures ValidSources(times, courses, CourseSources(courses, y, i, slots))
    ensures |RowsOf(times, courses, CourseSources(courses, y, i, slots))| == CountSlots(y, courses[i].id, slots)
    ensures forall r | r in RowsOf(times, courses, CourseSources(courses, y, i, slots)) ::
      r.courseId == courses[i].id && r.facultyId == courses[i].faculty
  {
    RowsOfAt(times, courses, CourseSources(courses, y, i, slots));
  }

  /** Counting over the first n courses splits into the first n - 1 and course n - 1's block. */
  lemma CountStep(times: seq<Timeslot>, slots: int, courses: seq<Course>, y: Assignment, n: int, p: Row -> bool)
    requires FitsSlots(times, slots) && 0 < n <= |courses|
    ensures ValidSources(times, courses, Sources(courses, y, slots, n - 1))
    ensures ValidSources(times, courses, CourseSources(courses, y, n - 1, slots))
    ensures ValidSources(times, courses, Sources(courses, y, slots, n))
    ensures CountIf(RowsOf(times, courses, Sources(courses, y, slots, n)), p) ==
      CountIf(RowsOf(times, courses, Sources(courses, y, slots, n - 1)), p) +
      CountIf(RowsOf(times, courses, CourseSources(courses, y, n - 1, slots)), p)
  {
    var prev := Sources(courses, y, slots, n - 1);
    var block := CourseSources(courses, y, n - 1, slots);
    SourcesValid(times, courses, y, slots, n - 1);
    BlockRows(times, slots, courses, y, n - 1);
    RowsOfAppend(times, courses, prev, block);
    CountIfAppend(RowsOf(times, courses, prev), RowsOf(times, courses, block), p);
  }

  /** One slot more adds course i's row at that slot to its block, when y makes it true. */
  lemma CourseRowsStep(times: seq<Timeslot>, slots: int, courses: seq<Course>, y: Assignment, i: int, m: int, p: Row -> bool)
    requires FitsSlots(times, slots) && 0 <= i < |courses| && 0 < m <= slots
    ensures ValidSources(times, courses, CourseSources(courses, y, i, m - 1))
    ensures ValidSources(times, courses, CourseSources(courses, y, i, m))
    ensures CountIf(RowsOf(times, courses, CourseSources(courses, y, i, m)), p) ==
      CountIf(RowsOf(times, courses, CourseSources(courses, y, i, m - 1)), p) +
      (if (courses[i].id, m - 1) in y && p(MakeRow(courses[i], m - 1, times[m - 1])) then 1 else 0)
  {
    if (courses[i].id, m - 1) in y {
      ScheduledRowStep(times, slots, courses, y, i, m, p);
    } else {
      assert CourseSources(courses, y, i, m) == CourseSources(courses, y, i, m - 1);
    }
  }

  /** The step of CourseRowsStep when y schedules course i at slot m - 1: its row is appended. */
  lemma ScheduledRowStep(times: seq<Timeslot>, slots: int, courses: seq<Course>, y: Assignment, i: int, m: int, p: Row -> bool)
    requires FitsSlots(times, slots) && 0 <= i < |courses| && 0 < m <= slots
    requires (courses[i].id, m - 1) in y
    ensures ValidSources(times, courses, CourseSources(courses, y, i, m - 1))
    ensures ValidSources(times, courses, CourseSources(courses, y, i, m))
    ensures CountIf(RowsOf(times, courses, CourseSources(courses, y, i, m)), p) ==
      CountIf(RowsOf(times, courses, CourseSources(courses, y, i, m - 1)), p) +
      (if p(MakeRow(courses[i], m - 1, times[m - 1])) then 1 else 0)
  {
    var src := CourseSources(courses, y, i, m - 1);
    var row := MakeRow(courses[i], m - 1, times[m - 1]);
    assert CourseSources(courses, y, i, m) == src + [(i, m - 1)];
    RowsOfSnoc(times, courses, src, (i, m - 1));
    CountIfAppend(RowsOf(times, courses, src), [row], p);
    assert CountIf([row], p) == (if p(row) then 1 else 0);
  }

  /** Course i's block counts fully, or not at all, for a test that looks only at course fields. */
  lemma BlockCount(times: seq<Timeslot>, slots: int, courses: seq<Course>, y: Assignment, i: int, p: Row -> bool, b: bool)
    requires FitsSlots(times, slots) && 0 <= i < |courses|
    requires forall r: Row | r.courseId == courses[i].id && r.facultyId == courses[i].faculty :: p(r) == b
    ensures ValidSources(times, courses, CourseSources(courses, y, i, slots))
    ensures CountIf(RowsOf(times, courses, CourseSources(courses, y, i, slots)), p) ==
      if b then CountSlots(y, courses[i].id, slots) else 0
  {
    BlockRows(times, slots, courses, y, i);
    var blockRows := RowsOf(times, courses, CourseSources(courses, y, i, slots));
    assert forall k | 0 <= k < |blockRows| :: p(blockRows[k]) == b;
    CountIfExtremes(blockRows, p);
  }

  /** Course i's block holds its scheduled slots as rows of faculty `fid`, or none. */
  lemma FacultyBlockCount(times: seq<Timeslot>, slots: int, courses: seq<Course>, y: Assignment, i: int, fid: FacultyId)
    requires FitsSlots(times, slots) && 0 <= i < |courses|
    ensures ValidSources(times, courses, CourseSources(courses, y, i, slots))
    ensures CountIf(RowsOf(times, courses, CourseSources(courses, y, i, slots)), OfFaculty(fid)) ==
      if courses[i].faculty == fid then CountSlots(y, courses[i].id, slots) else 0
  {
    BlockCount(times, slots, courses, y, i, OfFaculty(fid), courses[i].faculty == fid);
  }

  /** Course i's block holds its scheduled slots as rows naming course `cid` when i carries `cid`, or none. */
  lemma CourseBlockCount(times: seq<Timeslot>, slots: int, courses: seq<Course>, y: Assignment, i: int, cid: CourseId)
    requires FitsSlots(times, slots) && 0 <= i < |courses|
    ensures ValidSources(times, courses, CourseSources(courses, y, i, slots))
    ensures CountIf(RowsOf(times, courses, CourseSources(courses, y, i, slots)), OfCourse(cid)) ==
      if courses[i].id == cid then CountSlots(y, cid, slots) else 0
  {
    BlockCount(times, slots, courses, y, i, OfCourse(cid), courses[i].id == cid);
  }

  /** No course, no row. */
  lemma NoRows(times: seq<Timeslot>, slots: int, courses: seq<Course>, y: Assignment, p: Row -> bool)
    ensures ValidSources(times, courses, Sources(courses, y, slots, 0))
    ensures CountIf(RowsOf(times, courses, Sources(courses, y, slots, 0)), p) == 0
  {
    assert Sources(courses, y, slots, 0) == [];
    assert RowsOf(times, courses, []) == [];
  }

  /** One course more: its block adds the course's scheduled slots to faculty `fid`'s row count. */
  lemma FacultyCountStep(times: seq<Timeslot>, slots: int, courses: seq<Course>, y: Assignment, fid: FacultyId, n: int)
    requires FitsSlots(times, slots) && 0 < n <= |courses|
    requires ValidSources(times, courses, Sources(courses, y, slots, n - 1))
    requires CountIf(RowsOf(times, courses, Sources(courses, y, slots, n - 1)), OfFaculty(fid)) ==
      Load(y, CoursesOf(courses[..n - 1], fid), slots)
    ensures ValidSources(times, courses, Sources(courses, y, slots, n))
    ensures CountIf(RowsOf(times, courses, Sources(courses, y, slots, n)), OfFaculty(fid)) ==
      Load(y, CoursesOf(courses[..n], fid), slots)
  {
    CountStep(times, slots, courses, y, n, OfFaculty(fid));
    FacultyBlockCount(times, slots, courses, y, n - 1, fid);
    LoadOfPrefix(y, courses, fid, n, slots);
  }

  /** One course more: its block adds its scheduled slots to the rows naming `cid` when it carries `cid`. */
  lemma CourseCountStep(times: seq<Timeslot>, slots: int, courses: seq<Course>, y: Assignment, cid: CourseId, n: int)
    requires FitsSlots(times, slots) && 0 < n <= |courses|
    requires ValidSources(times, courses, Sources(courses, y, slots, n - 1))
    requires CountIf(RowsOf(times, courses, Sources(courses, y, slots, n - 1)), OfCourse(cid)) ==
      Load(y, Named(courses[..n - 1], cid), slots)
    ensures ValidSources(times, courses, Sources(courses, y, slots, n))
    ensures CountIf(RowsOf(times, courses, Sources(courses, y, slots, n)), OfCourse(cid)) ==
      Load(y, Named(courses[..n], cid), slots)
  {
    CountStep(times, slots, courses, y, n, OfCourse(cid));
    CourseBlockCount(times, slots, courses, y, n - 1, cid);
    LoadOfNamedPrefix(y, courses, cid, n, slots);
  }

  /** The rows of the first n courses that name faculty `fid` are that member's load (solver.py:86). */
  lemma {:induction false} FacultyRowCount(times: seq<Timeslot>, slots: int, courses: seq<Course>, y: Assignment,
                                           fid: FacultyId, n: int)
    requires FitsSlots(times, slots) && 0 <= n <= |courses|
    ensures ValidSources(times, courses, Sources(courses, y, slots, n))
    ensures CountIf(RowsOf(times, courses, Sources(courses, y, slots, n)), OfFaculty(fid)) ==
      Load(y, CoursesOf(courses[..n], fid), slots)
  {
    if n == 0 {
      NoRows(times, slots, courses, y, OfFaculty(fid));
      assert courses[..0] == [];
    } else {
      FacultyRowCount(times, slots, courses, y, fid, n - 1);
      FacultyCountStep(times, slots, courses, y, fid, n);
    }
  }

  /** The rows of the first n courses that name course `cid` are the scheduled slots of its entries among them. */
  lemma {:induction false} CourseRowCount(times: seq<Timeslot>, slots: int, courses: seq<Course>, y: Assignment,
                                          cid: CourseId, n: int)
    requires FitsSlots(times, slots) && 0 <= n <= |courses|
    ensures ValidSources(times, courses, Sources(courses, y, slots, n))
    ensures CountIf(RowsOf(times, courses, Sources(courses, y, slots, n)), OfCourse(cid)) ==
      Load(y, Named(courses[..n], cid), slots)
  {
    if n == 0 {
      NoRows(times, slots, courses, y, OfCourse(cid));
      assert courses[..0] == [];
    } else {
      CourseRowCount(times, slots, courses, y, cid, n - 1);
      CourseCountStep(times, slots, courses, y, cid, n);
    }
  }

  /**
   * A course whose id no other entry shares appears in exactly
   * sessions_per_week rows (solver.py:63-66).
   */
  lemma RowsCoverCourses(data: Data, y: Assignment, i: int)
    requires ValidSchedule(data, y)
    requires 0 <= i < |data.courses| && UniqueId(data.courses, i)
    ensures CountIf(Timetable(data, y), OfCourse(data.courses[i].id)) == data.courses[i].sessions
  {
    var cid := data.courses[i].id;
    CourseRowCount(WeekGrid(data.days, data.periodsPerDay), Slots(data), data.courses, y, cid, |data.courses|);
    assert data.courses[..|data.courses|] == data.courses;
    LoadOfUnique(y, data.courses, i, |data.courses|, Slots(data));
  }

  /**
   * The rows of a listed faculty member number no more than the slots, and
   * no more than a positive max_hours (solver.py:82-88).
   */
  lemma RowsRespectLoad(data: Data, y: Assignment, f: int)
    requires ValidSchedule(data, y)
    requires 0 <= f < |data.faculty|
    ensures CountIf(Timetable(data, y), OfFaculty(data.faculty[f].id)) <= (if Slots(data) > 0 then Slots(data) else 0)
    ensures data.faculty[f].maxHours > 0 ==>
      CountIf(Timetable(data, y), OfFaculty(data.faculty[f].id)) <= data.faculty[f].maxHours
  {
    var fid := data.faculty[f].id;
    FacultyRowCount(WeekGrid(data.days, data.periodsPerDay), Slots(data), data.courses, y, fid, |data.courses|);
    assert data.courses[..|data.courses|] == data.courses;
    var cids := CoursesOf(data.courses, fid);
    LoadIsSlotTotal(y, cids, Slots(data));
    SlotTotalBound(y, cids, Slots(data));
  }
}
