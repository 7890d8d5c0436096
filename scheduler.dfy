/**
 * build_and_solve (solver.py:24-140) as a whole: the pre-check, the tables,
 * the decision variables, the constraint loops that can fail on an unknown
 * course id, the call to the solver and the extraction of rows. The solver
 * is a parameter: `solved` is None when it finds no feasible assignment and
 * otherwise holds the variables its solution makes true.
 */
module Scheduler {
  import opened Wrappers
  import opened Problem
  import opened Indexes
  import opened Constraints
  import opened Extraction
  import opened Guarantees
  import opened Objective

  /** Why build_and_solve returns no rows. */
  datatype Failure =
    | TooManySessions(course: CourseId, sessions: int, slots: int)  // the SystemExit of solver.py:36-38
    | UnknownCourse(student: StudentId, course: CourseId)            // the KeyError of solver.py:95
    | NoSolution                                                     // the `return None` of solver.py:119-121

  // ---------------------------------------------------------------------
  // The pre-check of solver.py:34-38

  /** The position of the first course asking for more than `slots` sessions, or |courses| if none does. */
  function FirstOverfull(courses: seq<Course>, slots: int): (k: int)
    ensures 0 <= k <= |courses|
    ensures forall j | 0 <= j < k :: courses[j].sessions <= slots
    ensures k < |courses| ==> courses[k].sessions > slots
  {
    if |courses| == 0 then 0
    else if courses[0].sessions > slots then 0
    else
      assert forall j | 1 <= j < |courses| :: courses[1..][j - 1] == courses[j];
      1 + FirstOverfull(courses[1..], slots)
  }

  /** The loop of solver.py:34-38: the course it stops at, or |courses|. */
  method PreCheck(courses: seq<Course>, slots: int) returns (k: int)
    ensures k == FirstOverfull(courses, slots)
  {
    k := 0;
    while k < |courses| && courses[k].sessions <= slots
      invariant 0 <= k <= |courses|
      invariant forall j | 0 <= j < k :: courses[j].sessions <= slots
    {
      k := k + 1;
    }
  }

  // ---------------------------------------------------------------------
  // The decision variables of solver.py:54-58

  /** The loop of solver.py:54-58: the keys of y, one per course id and slot of range(T). */
  method DecisionVariables(courses: seq<Course>, slots: int) returns (vars: set<(CourseId, int)>)
    ensures forall v :: v in vars <==> v.0 in CourseIds(courses) && 0 <= v.1 < slots
  {
    vars := {};
    var i := 0;
    while i < |courses|
      invariant 0 <= i <= |courses|
      invariant forall v :: v in vars <==> v.0 in CourseIds(courses[..i]) && 0 <= v.1 < slots
    {
      vars := AddCourseVariables(courses, slots, i, vars);
      i := i + 1;
    }
    assert courses[..i] == courses;
  }

  /** One turn of the outer loop of solver.py:55-58: the keys of course i. */
  method AddCourseVariables(courses: seq<Course>, slots: int, i: int, vars0: set<(CourseId, int)>)
    returns (vars: set<(CourseId, int)>)
    requires 0 <= i < |courses|
    requires forall v :: v in vars0 <==> v.0 in CourseIds(courses[..i]) && 0 <= v.1 < slots
    ensures forall v :: v in vars <==> v.0 in CourseIds(courses[..i + 1]) && 0 <= v.1 < slots
  {
    var cid := courses[i].id;
    assert CourseIds(courses[..i + 1]) == CourseIds(courses[..i]) + {cid} by {
      assert forall j | 0 <= j < i :: courses[..i + 1][j] == courses[..i][j];
      assert courses[..i + 1][i] == courses[i];
    }
    vars := vars0;
    var t := 0;
    while t < slots
      invariant 0 <= t <= (if slots > 0 then slots else 0)
      invariant forall v :: v in vars <==>
        (v.0 in CourseIds(courses[..i]) && 0 <= v.1 < slots) || (v.0 == cid && 0 <= v.1 < t)
    {
      vars := vars + {(cid, t)};
      t := t + 1;
    }
  }

  // ---------------------------------------------------------------------
  // The student constraints of solver.py:91-95 and their KeyError

  /** The position of the first entry of `cids` outside `known`, or |cids|. */
  function FirstNotIn(cids: seq<CourseId>, known: set<CourseId>): (j: int)
    ensures 0 <= j <= |cids|
    ensures forall l | 0 <= l < j :: cids[l] in known
    ensures j < |cids| ==> cids[j] !in known
  {
    if |cids| == 0 then 0
    else if cids[0] !in known then 0
    else
      assert forall l | 1 <= l < |cids| :: cids[1..][l - 1] == cids[l];
      1 + FirstNotIn(cids[1..], known)
  }

  /**
   * The first student entry from position k on whose course list names an
   * unknown course, with the first such course of that list.
   */
  function UnknownFrom(students: seq<Student>, known: set<CourseId>, k: int): (r: Option<(StudentId, CourseId)>)
    requires 0 <= k <= |students|
    ensures r.None? <==> forall j | k <= j < |students| ::
      forall cid | cid in EnrolledOf(students, students[j].id) :: cid in known
    ensures r.Some? ==>
      r.value.1 !in known && r.value.1 in EnrolledOf(students, r.value.0) && r.value.0 in StudentIds(students)
    decreases |students| - k
  {
    if k == |students| then None else
      var cids := EnrolledOf(students, students[k].id);
      var j := FirstNotIn(cids, known);
      if j < |cids| then Some((students[k].id, cids[j])) else UnknownFrom(students, known, k + 1)
  }

  /**
   * The key y[(cid, t)] that is missing first, as (student id, course id): at
   * t = 0 when range(T) is not empty, and none when it is.
   */
  function FirstUnknown(students: seq<Student>, known: set<CourseId>, slots: int): Option<(StudentId, CourseId)>
  {
    if slots <= 0 then None else UnknownFrom(students, known, 0)
  }

  /** The sum of solver.py:95 at t = 0: the first of `cids` whose key y[(cid, 0)] is missing, or |cids|. */
  method FirstMissing(cids: seq<CourseId>, courses: seq<Course>, vars: set<(CourseId, int)>, slots: int)
    returns (j: int)
    requires slots > 0
    requires forall v :: v in vars <==> v.0 in CourseIds(courses) && 0 <= v.1 < slots
    ensures j == FirstNotIn(cids, CourseIds(courses))
  {
    j := 0;
    while j < |cids| && (cids[j], 0) in vars
      invariant 0 <= j <= |cids|
      invariant forall l | 0 <= l < j :: cids[l] in CourseIds(courses)
    {
      j := j + 1;
    }
  }

  /**
   * Whether the loops of solver.py:91-95 raise KeyError, given the table of
   * solver.py:47-49 and the keys of y: the first missing key they read.
   */
  method EnrolmentCheck(students: seq<Student>, studentCourses: map<StudentId, seq<CourseId>>,
                        courses: seq<Course>, vars: set<(CourseId, int)>, slots: int)
    returns (r: Option<(StudentId, CourseId)>)
    requires studentCourses.Keys == StudentIds(students)
    requires forall sid | sid in studentCourses :: studentCourses[sid] == EnrolledOf(students, sid)
    requires forall v :: v in vars <==> v.0 in CourseIds(courses) && 0 <= v.1 < slots
    ensures r == FirstUnknown(students, CourseIds(courses), slots)
  {
    if slots <= 0 {
      return None;
    }
    var known := CourseIds(courses);
    var k := 0;
    while k < |students|
      invariant 0 <= k <= |students|
      invariant UnknownFrom(students, known, k) == UnknownFrom(students, known, 0)
    {
      assert students[k].id in StudentIds(students);
      var cids := studentCourses[students[k].id];
      var j := FirstMissing(cids, courses, vars, slots);
      if j < |cids| {
        return Some((students[k].id, cids[j]));
      }
      k := k + 1;
    }
    return None;
  }

  // ---------------------------------------------------------------------
  // build_and_solve

  /** What build_and_solve returns for input data when the solver answers `solved`. */
  ghost function Outcome(data: Data, solved: Option<Assignment>): Result<seq<Row>, Failure>
  {
    var slots := Slots(data);
    var k := FirstOverfull(data.courses, slots);
    if k < |data.courses| then Err(TooManySessions(data.courses[k].id, data.courses[k].sessions, slots))
    else
      var u := FirstUnknown(data.students, CourseIds(data.courses), slots);
      if u.Some? then Err(UnknownCourse(u.value.0, u.value.1))
      else if solved.None? then Err(NoSolution)
      else Ok(Timetable(data, solved.value))
  }

  /**
   * build_and_solve (solver.py:24-140). The tables, the decision variables and
   * the penalty terms are what the solver receives; `solved` stands for its
   * answer, which when present satisfies every hard constraint.
   */
  method BuildAndSolve(data: Data, solved: Option<Assignment>) returns (r: Result<seq<Row>, Failure>)
    requires solved.Some? ==> ValidSchedule(data, solved.value)
    ensures r == Outcome(data, solved)
  {
    var slots := |data.days| * data.periodsPerDay;
    NumSlotsIsProduct(|data.days|, data.periodsPerDay);
    var k := PreCheck(data.courses, slots);
    if k < |data.courses| {
      return Err(TooManySessions(data.courses[k].id, data.courses[k].sessions, slots));
    }
    var facultyCourses := FacultyCourses(data.faculty, data.courses);
    var studentCourses := StudentCourses(data.students);
    var vars := DecisionVariables(data.courses, slots);
    var unknown := EnrolmentCheck(data.students, studentCourses, data.courses, vars, slots);
    if unknown.Some? {
      return Err(UnknownCourse(unknown.value.0, unknown.value.1));
    }
    var terms := PenaltyTerms(data.courses, data.faculty, slots);
    if solved.None? {
      return Err(NoSolution);
    }
    var rows := ExtractRows(data.days, data.periodsPerDay, data.courses, solved.value);
    return Ok(rows);
  }

  // ---------------------------------------------------------------------
  // What the outcome promises

  /** The input is rejected before any solving exactly when some course asks for more than T sessions. */
  lemma RejectsOverfull(data: Data, solved: Option<Assignment>)
    ensures Outcome(data, solved).Err? && Outcome(data, solved).error.TooManySessions? <==>
      exists i | 0 <= i < |data.courses| :: data.courses[i].sessions > Slots(data)
    ensures Outcome(data, solved).Err? && Outcome(data, solved).error.TooManySessions? ==>
      var k := FirstOverfull(data.courses, Slots(data));
      Outcome(data, solved).error == TooManySessions(data.courses[k].id, data.courses[k].sessions, Slots(data))
  {
  }

  /**
   * A KeyError is raised exactly when no course is over-full, T > 0, and some
   * student's course list names a course id no course entry has.
   */
  lemma RejectsUnknownCourse(data: Data, solved: Option<Assignment>)
    ensures Outcome(data, solved).Err? && Outcome(data, solved).error.UnknownCourse? <==>
      && (forall i | 0 <= i < |data.courses| :: data.courses[i].sessions <= Slots(data))
      && Slots(data) > 0
      && exists j | 0 <= j < |data.students| ::
           exists cid | cid in EnrolledOf(data.students, data.students[j].id) :: cid !in CourseIds(data.courses)
    ensures Outcome(data, solved).Err? && Outcome(data, solved).error.UnknownCourse? ==>
      var e := Outcome(data, solved).error;
      e.student in StudentIds(data.students) && e.course in EnrolledOf(data.students, e.student) &&
      e.course !in CourseIds(data.courses)
  {
    var u := UnknownFrom(data.students, CourseIds(data.courses), 0);
  }

  /**
   * Rows are returned exactly when the input passes both checks and the
   * solver finds an assignment; they are then its timetable, with
   * sum(sessions_per_week) rows.
   */
  lemma AcceptsSolved(data: Data, solved: Option<Assignment>)
    requires solved.Some? ==> ValidSchedule(data, solved.value)
    ensures Outcome(data, solved).Ok? <==>
      && FirstOverfull(data.courses, Slots(data)) == |data.courses|
      && FirstUnknown(data.students, CourseIds(data.courses), Slots(data)).None?
      && solved.Some?
    ensures Outcome(data, solved).Ok? ==>
      && Outcome(data, solved).value == Timetable(data, solved.value)
      && |Outcome(data, solved).value| == SumSessions(data.courses)
  {
    if Outcome(data, solved).Ok? {
      RowCount(data, solved.value);
    }
  }

  /**
   * Under a non-negative T the pre-check never rejects an input that has a
   * valid schedule: a course cannot take more distinct slots than there are.
   */
  lemma PreCheckKeepsSchedulable(data: Data, y: Assignment)
    requires ValidSchedule(data, y) && Slots(data) >= 0
    ensures FirstOverfull(data.courses, Slots(data)) == |data.courses|
  {
    forall i | 0 <= i < |data.courses| ensures data.courses[i].sessions <= Slots(data) {
      assert CountSlots(y, data.courses[i].id, Slots(data)) == data.courses[i].sessions;
    }
  }
}
