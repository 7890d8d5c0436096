/**
 * The two lookup tables build_and_solve derives from its input before any
 * constraint is posted (solver.py:41-49).
 */
module Indexes {
  import opened Problem
  import opened Counting

  /** `[c["id"] for c in courses if c["faculty"] == fid]` (solver.py:44). */
  function CoursesOf(courses: seq<Course>, fid: FacultyId): (r: seq<CourseId>)
    ensures |r| <= |courses|
    ensures forall cid :: cid in r <==>
      exists i | 0 <= i < |courses| :: courses[i].id == cid && courses[i].faculty == fid
  {
    if |courses| == 0 then [] else
      var n := |courses| - 1;
      assert forall i | 0 <= i < n :: courses[..n][i] == courses[i];
      CoursesOf(courses[..n], fid) + (if courses[n].faculty == fid then [courses[n].id] else [])
  }

  /** The list holds each course id once per course entry with that id and faculty `fid`. */
  lemma {:induction false} CoursesOfCount(courses: seq<Course>, fid: FacultyId, cid: CourseId)
    ensures multiset(CoursesOf(courses, fid))[cid] == CountIf(courses, (c: Course) => c.faculty == fid && c.id == cid)
  {
    if |courses| > 0 {
      var n := |courses| - 1;
      CoursesOfCount(courses[..n], fid, cid);
    }
  }

  /** The list has one entry per course entry of faculty `fid`. */
  lemma {:induction false} CoursesOfLength(courses: seq<Course>, fid: FacultyId)
    ensures |CoursesOf(courses, fid)| == CountIf(courses, (c: Course) => c.faculty == fid)
  {
    if |courses| > 0 {
      var n := |courses| - 1;
      CoursesOfLength(courses[..n], fid);
    }
  }

  /**
   * The list keeps the order of `courses`: two courses of `fid`, in this
   * order, sit at two positions of it in the same order.
   */
  lemma {:induction false} CoursesOfKeepsOrder(courses: seq<Course>, fid: FacultyId, i: int, j: int)
    requires 0 <= i < j < |courses|
    requires courses[i].faculty == fid && courses[j].faculty == fid
    ensures exists p, q | 0 <= p < q < |CoursesOf(courses, fid)| ::
      CoursesOf(courses, fid)[p] == courses[i].id && CoursesOf(courses, fid)[q] == courses[j].id
  {
    var n := |courses| - 1;
    var prefix := courses[..n];
    var r := CoursesOf(courses, fid);
    assert r == CoursesOf(prefix, fid) + (if courses[n].faculty == fid then [courses[n].id] else []);
    if j == n {
      assert prefix[i] == courses[i];
      assert courses[i].id in CoursesOf(prefix, fid);
      var p :| 0 <= p < |CoursesOf(prefix, fid)| && CoursesOf(prefix, fid)[p] == courses[i].id;
      assert r[p] == courses[i].id && r[|r| - 1] == courses[j].id;
    } else {
      assert prefix[i] == courses[i] && prefix[j] == courses[j];
      CoursesOfKeepsOrder(prefix, fid, i, j);
      var p, q :| 0 <= p < q < |CoursesOf(prefix, fid)|
        && CoursesOf(prefix, fid)[p] == courses[i].id && CoursesOf(prefix, fid)[q] == courses[j].id;
      assert r[p] == courses[i].id && r[q] == courses[j].id;
    }
  }

  /**
   * `student_courses.get(sid, [])` once the table is built: the `enrolled`
   * list of the LAST student entry with id `sid`, since a later entry
   * overwrites an earlier one in the dictionary; [] when no entry has it.
   */
  function EnrolledOf(students: seq<Student>, sid: StudentId): seq<CourseId>
  {
    if |students| == 0 then [] else
      var n := |students| - 1;
      if students[n].id == sid then students[n].enrolled else EnrolledOf(students[..n], sid)
  }

  /** The table holds the list of the last entry with the id, and nothing for an unknown id. */
  lemma EnrolledOfLast(students: seq<Student>, sid: StudentId)
    ensures (forall k | 0 <= k < |students| :: students[k].id != sid) ==> EnrolledOf(students, sid) == []
    ensures forall k | 0 <= k < |students| && students[k].id == sid && LastWithId(students, k) ::
      EnrolledOf(students, sid) == students[k].enrolled
  {
    if forall k | 0 <= k < |students| :: students[k].id != sid {
      EnrolledOfMissing(students, sid);
    }
    forall k | 0 <= k < |students| && students[k].id == sid && LastWithId(students, k)
      ensures EnrolledOf(students, sid) == students[k].enrolled
    {
      EnrolledOfAt(students, sid, k);
    }
  }

  lemma {:induction false} EnrolledOfAt(students: seq<Student>, sid: StudentId, k: int)
    requires 0 <= k < |students| && students[k].id == sid && LastWithId(students, k)
    ensures EnrolledOf(students, sid) == students[k].enrolled
  {
    var n := |students| - 1;
    if k < n {
      var prefix := students[..n];
      assert students[n].id != sid;
      assert prefix[k] == students[k];
      assert LastWithId(prefix, k) by {
        assert forall j | k < j < n :: prefix[j] == students[j];
      }
      EnrolledOfAt(prefix, sid, k);
    }
  }

  lemma {:induction false} EnrolledOfMissing(students: seq<Student>, sid: StudentId)
    requires forall k | 0 <= k < |students| :: students[k].id != sid
    ensures EnrolledOf(students, sid) == []
  {
    if |students| > 0 {
      var n := |students| - 1;
      assert forall k | 0 <= k < n :: students[..n][k] == students[k];
      EnrolledOfMissing(students[..n], sid);
    }
  }

  /** No later entry of `students` shares the id of entry k. */
  ghost predicate LastWithId(students: seq<Student>, k: int)
    requires 0 <= k < |students|
  {
    forall j | k < j < |students| :: students[j].id != students[k].id
  }

  /** The faculty ids of the input. */
  function FacultyIds(faculty: seq<Faculty>): set<FacultyId>
  {
    set k | 0 <= k < |faculty| :: faculty[k].id
  }

  /** The student ids of the input. */
  function StudentIds(students: seq<Student>): set<StudentId>
  {
    set k | 0 <= k < |students| :: students[k].id
  }

  /** The `faculty_courses` table of solver.py:42-44. */
  method FacultyCourses(faculty: seq<Faculty>, courses: seq<Course>) returns (m: map<FacultyId, seq<CourseId>>)
    ensures m.Keys == FacultyIds(faculty)
    ensures forall fid | fid in m :: m[fid] == CoursesOf(courses, fid)
  {
    m := map[];
    var k := 0;
    while k < |faculty|
      invariant 0 <= k <= |faculty|
      invariant m.Keys == FacultyIds(faculty[..k])
      invariant forall fid | fid in m :: m[fid] == CoursesOf(courses, fid)
    {
      assert FacultyIds(faculty[..k + 1]) == FacultyIds(faculty[..k]) + {faculty[k].id} by {
        assert forall j | 0 <= j < k :: faculty[..k + 1][j] == faculty[..k][j];
      }
      m := m[faculty[k].id := CoursesOf(courses, faculty[k].id)];
      k := k + 1;
    }
    assert faculty[..k] == faculty;
  }

  /** The `student_courses` table of solver.py:47-49. */
  method StudentCourses(students: seq<Student>) returns (m: map<StudentId, seq<CourseId>>)
    ensures m.Keys == StudentIds(students)
    ensures forall sid | sid in m :: m[sid] == EnrolledOf(students, sid)
  {
    m := map[];
    var k := 0;
    while k < |students|
      invariant 0 <= k <= |students|
      invariant m.Keys == StudentIds(students[..k])
      invariant forall sid | sid in m :: m[sid] == EnrolledOf(students[..k], sid)
    {
      var next := students[..k + 1];
      assert next[..k] == students[..k];
      assert StudentIds(next) == StudentIds(students[..k]) + {students[k].id} by {
        assert forall j | 0 <= j < k :: next[j] == students[..k][j];
      }
      m := m[students[k].id := students[k].enrolled];
      k := k + 1;
    }
    assert students[..k] == students;
  }
}
