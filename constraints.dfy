/**
 * The hard constraints that build_and_solve posts on the Boolean variables
 * y[(course id, t)] (solver.py:62-95), as a predicate on the set of variables
 * a solution makes true.
 */
module Constraints {
  import opened Problem
  import opened Indexes

  /** sum(y[(cid, t)] for t in range(n)). */
  function CountSlots(y: Assignment, cid: CourseId, n: int): (r: nat)
    ensures r <= (if n > 0 then n else 0)
    decreases n
  {
    if n <= 0 then 0 else CountSlots(y, cid, n - 1) + (if (cid, n - 1) in y then 1 else 0)
  }

  /** sum(y[(cid, t)] for cid in cids), every entry of the list counted. */
  function CountAt(y: Assignment, cids: seq<CourseId>, t: int): (r: nat)
    ensures r <= |cids|
  {
    if |cids| == 0 then 0 else
      var n := |cids| - 1;
      CountAt(y, cids[..n], t) + (if (cids[n], t) in y then 1 else 0)
  }

  /** sum(y[(cid, t)] for cid in cids for t in range(n)). */
  function Load(y: Assignment, cids: seq<CourseId>, n: int): nat
  {
    if |cids| == 0 then 0 else
      var m := |cids| - 1;
      Load(y, cids[..m], n) + CountSlots(y, cids[m], n)
  }

  /** The slots in range(n) at which course `cid` is scheduled. */
  function ScheduledSlots(y: Assignment, cid: CourseId, n: int): set<int>
  {
    set t | 0 <= t < n && (cid, t) in y
  }

  /** 1) every course gets its sessions_per_week (solver.py:63-66). */
  ghost predicate SessionsMet(data: Data, y: Assignment)
  {
    forall i | 0 <= i < |data.courses| ::
      CountSlots(y, data.courses[i].id, Slots(data)) == data.courses[i].sessions
  }

  /** 2a) no course of a faculty member at one of its in-range unavailable slots (solver.py:71-76). */
  ghost predicate AvailabilityRespected(data: Data, y: Assignment)
  {
    forall k, cid, t |
      && 0 <= k < |data.faculty|
      && cid in CoursesOf(data.courses, data.faculty[k].id)
      && t in data.faculty[k].unavailable
      && 0 <= t < Slots(data)
      :: (cid, t) !in y
  }

  /** 2b) at most one course of a faculty member per slot (solver.py:79-80). */
  ghost predicate NoFacultyClash(data: Data, y: Assignment)
  {
    forall k, t | 0 <= k < |data.faculty| && 0 <= t < Slots(data) ::
      CountAt(y, CoursesOf(data.courses, data.faculty[k].id), t) <= 1
  }

  /** 2c) a positive max_hours bounds the weekly load; 0 means no bound (solver.py:83-88). */
  ghost predicate LoadWithinLimit(data: Data, y: Assignment)
  {
    forall k | 0 <= k < |data.faculty| && data.faculty[k].maxHours > 0 ::
      Load(y, CoursesOf(data.courses, data.faculty[k].id), Slots(data)) <= data.faculty[k].maxHours
  }

  /** 3) at most one enrolled course of a student per slot (solver.py:91-95). */
  ghost predicate NoStudentClash(data: Data, y: Assignment)
  {
    forall k, t | 0 <= k < |data.students| && 0 <= t < Slots(data) ::
      CountAt(y, EnrolledOf(data.students, data.students[k].id), t) <= 1
  }

  /** Every hard constraint of the model holds. */
  ghost predicate ValidSchedule(data: Data, y: Assignment)
  {
    && SessionsMet(data, y)
    && AvailabilityRespected(data, y)
    && NoFacultyClash(data, y)
    && LoadWithinLimit(data, y)
    && NoStudentClash(data, y)
  }

  // ---------------------------------------------------------------------
  // What the sums mean

  /** The sessions of a course are distinct slots: the sum counts a set. */
  lemma {:induction false} CountSlotsIsSetSize(y: Assignment, cid: CourseId, n: int)
    ensures CountSlots(y, cid, n) == |ScheduledSlots(y, cid, n)|
    decreases n
  {
    if n <= 0 {
      assert ScheduledSlots(y, cid, n) == {};
    } else {
      CountSlotsIsSetSize(y, cid, n - 1);
      if (cid, n - 1) in y {
        assert ScheduledSlots(y, cid, n) == ScheduledSlots(y, cid, n - 1) + {n - 1};
      } else {
        assert ScheduledSlots(y, cid, n) == ScheduledSlots(y, cid, n - 1);
      }
    }
  }

  lemma {:induction false} CountAtWitness(y: Assignment, cids: seq<CourseId>, t: int)
    requires CountAt(y, cids, t) >= 1
    ensures exists p | 0 <= p < |cids| :: (cids[p], t) in y
  {
    var n := |cids| - 1;
    if (cids[n], t) !in y {
      CountAtWitness(y, cids[..n], t);
      var p :| 0 <= p < n && (cids[..n][p], t) in y;
      assert cids[p] == cids[..n][p];
    }
  }

  lemma {:induction false} CountAtPositive(y: Assignment, cids: seq<CourseId>, t: int, p: int)
    requires 0 <= p < |cids| && (cids[p], t) in y
    ensures CountAt(y, cids, t) >= 1
  {
    var n := |cids| - 1;
    if p < n {
      assert cids[..n][p] == cids[p];
      CountAtPositive(y, cids[..n], t, p);
    }
  }

  /**
   * A per-slot sum of at most one, as in solver.py:80 and :95, holds exactly
   * when no two entries of the list are both scheduled in that slot.
   */
  lemma {:induction false} CountAtAtMostOne(y: Assignment, cids: seq<CourseId>, t: int)
    ensures CountAt(y, cids, t) <= 1 <==>
      forall p, q | 0 <= p < q < |cids| :: !((cids[p], t) in y && (cids[q], t) in y)
  {
    if |cids| > 0 {
      var n := |cids| - 1;
      var prefix := cids[..n];
      CountAtAtMostOne(y, prefix, t);
      assert forall p | 0 <= p < n :: prefix[p] == cids[p];
      if CountAt(y, cids, t) <= 1 {
        forall p, q | 0 <= p < q < |cids| ensures !((cids[p], t) in y && (cids[q], t) in y) {
          if q == n && (cids[p], t) in y && (cids[q], t) in y {
            CountAtPositive(y, prefix, t, p);
          }
        }
      } else {
        if (cids[n], t) in y {
          CountAtWitness(y, prefix, t);
          var p :| 0 <= p < n && (prefix[p], t) in y;
          assert (cids[p], t) in y && (cids[n], t) in y;
        }
      }
    }
  }

  // ---------------------------------------------------------------------
  // The constraints stated on the input's own entities

  /** The two courses of one faculty member never share a slot (solver.py:44, 78-80). */
  lemma FacultyNeverDoubleBooked(data: Data, y: Assignment, k: int, i: int, j: int, t: int)
    requires ValidSchedule(data, y)
    requires 0 <= k < |data.faculty| && 0 <= t < Slots(data)
    requires 0 <= i < |data.courses| && 0 <= j < |data.courses| && i != j
    requires data.courses[i].faculty == data.faculty[k].id == data.courses[j].faculty
    ensures !((data.courses[i].id, t) in y && (data.courses[j].id, t) in y)
  {
    var fid := data.faculty[k].id;
    var cids := CoursesOf(data.courses, fid);
    var lo, hi := if i < j then i else j, if i < j then j else i;
    CoursesOfKeepsOrder(data.courses, fid, lo, hi);
    var p, q :| 0 <= p < q < |cids| && cids[p] == data.courses[lo].id && cids[q] == data.courses[hi].id;
    CountAtAtMostOne(y, cids, t);
  }

  /** Two different courses a student is enrolled in never share a slot (solver.py:49, 90-95). */
  lemma StudentNeverDoubleBooked(data: Data, y: Assignment, k: int, c1: CourseId, c2: CourseId, t: int)
    requires ValidSchedule(data, y)
    requires 0 <= k < |data.students| && 0 <= t < Slots(data)
    requires c1 != c2
    requires c1 in EnrolledOf(data.students, data.students[k].id)
    requires c2 in EnrolledOf(data.students, data.students[k].id)
    ensures !((c1, t) in y && (c2, t) in y)
  {
    var cids := EnrolledOf(data.students, data.students[k].id);
    var p :| 0 <= p < |cids| && cids[p] == c1;
    var q :| 0 <= q < |cids| && cids[q] == c2;
    CountAtAtMostOne(y, cids, t);
  }

  /** A course is never scheduled at an in-range unavailable slot of its faculty member (solver.py:71-76). */
  lemma UnavailableNeverScheduled(data: Data, y: Assignment, k: int, i: int, t: int)
    requires ValidSchedule(data, y)
    requires 0 <= k < |data.faculty| && 0 <= i < |data.courses|
    requires data.courses[i].faculty == data.faculty[k].id
    requires t in data.faculty[k].unavailable && 0 <= t < Slots(data)
    ensures (data.courses[i].id, t) !in y
  {
    assert data.courses[i].id in CoursesOf(data.courses, data.faculty[k].id);
  }

  // ---------------------------------------------------------------------
  // Load, capacity and infeasibility

  /** The weekly sessions the courses of `fid` ask for. */
  function RequiredLoad(courses: seq<Course>, fid: FacultyId): int
  {
    if |courses| == 0 then 0 else
      var n := |courses| - 1;
      RequiredLoad(courses[..n], fid) + (if courses[n].faculty == fid then courses[n].sessions else 0)
  }

  /** sum over t in range(n) of the per-slot sums of solver.py:80. */
  function SlotTotal(y: Assignment, cids: seq<CourseId>, n: int): nat
    decreases n
  {
    if n <= 0 then 0 else SlotTotal(y, cids, n - 1) + CountAt(y, cids, n - 1)
  }

  lemma {:induction false} LoadOfAppend(y: Assignment, cids: seq<CourseId>, cid: CourseId, n: int)
    ensures Load(y, cids + [cid], n) == Load(y, cids, n) + CountSlots(y, cid, n)
  {
    assert (cids + [cid])[..|cids|] == cids;
  }

  lemma {:induction false} SlotTotalOfAppend(y: Assignment, cids: seq<CourseId>, cid: CourseId, n: int)
    ensures SlotTotal(y, cids + [cid], n) == SlotTotal(y, cids, n) + CountSlots(y, cid, n)
    decreases n
  {
    if n > 0 {
      SlotTotalOfAppend(y, cids, cid, n - 1);
      assert (cids + [cid])[..|cids|] == cids;
    }
  }

  /** The load sum of solver.py:86 adds up the per-slot sums of solver.py:80. */
  lemma {:induction false} LoadIsSlotTotal(y: Assignment, cids: seq<CourseId>, n: int)
    ensures Load(y, cids, n) == SlotTotal(y, cids, n)
  {
    if |cids| == 0 {
      SlotTotalOfEmpty(y, cids, n);
    } else {
      var m := |cids| - 1;
      LoadIsSlotTotal(y, cids[..m], n);
      assert cids == cids[..m] + [cids[m]];
      LoadOfAppend(y, cids[..m], cids[m], n);
      SlotTotalOfAppend(y, cids[..m], cids[m], n);
    }
  }

  lemma {:induction false} SlotTotalOfEmpty(y: Assignment, cids: seq<CourseId>, n: int)
    requires cids == []
    ensures SlotTotal(y, cids, n) == 0
    decreases n
  {
    if n > 0 {
      SlotTotalOfEmpty(y, cids, n - 1);
    }
  }

  lemma {:induction false} SlotTotalBound(y: Assignment, cids: seq<CourseId>, n: int)
    requires forall t | 0 <= t < n :: CountAt(y, cids, t) <= 1
    ensures SlotTotal(y, cids, n) <= (if n > 0 then n else 0)
    decreases n
  {
    if n > 0 {
      SlotTotalBound(y, cids, n - 1);
    }
  }

  /** Under the session constraint a faculty member's load is what its courses ask for. */
  lemma {:induction false} LoadIsRequired(courses: seq<Course>, y: Assignment, fid: FacultyId, n: int)
    requires forall i | 0 <= i < |courses| :: CountSlots(y, courses[i].id, n) == courses[i].sessions
    ensures Load(y, CoursesOf(courses, fid), n) == RequiredLoad(courses, fid)
  {
    if |courses| > 0 {
      var m := |courses| - 1;
      assert forall i | 0 <= i < m :: courses[..m][i] == courses[i];
      LoadIsRequired(courses[..m], y, fid, n);
      if courses[m].faculty == fid {
        LoadOfAppend(y, CoursesOf(courses[..m], fid), courses[m].id, n);
      } else {
        assert CoursesOf(courses, fid) == CoursesOf(courses[..m], fid);
      }
    }
  }

  /** Load over the courses of `fid` among the first n courses, one course at a time. */
  lemma LoadOfPrefix(y: Assignment, courses: seq<Course>, fid: FacultyId, n: int, slots: int)
    requires 0 < n <= |courses|
    ensures Load(y, CoursesOf(courses[..n], fid), slots) ==
      Load(y, CoursesOf(courses[..n - 1], fid), slots) +
      (if courses[n - 1].faculty == fid then CountSlots(y, courses[n - 1].id, slots) else 0)
  {
    var c := courses[n - 1];
    assert courses[..n][..n - 1] == courses[..n - 1];
    assert courses[..n][n - 1] == c;
    if c.faculty == fid {
      LoadOfAppend(y, CoursesOf(courses[..n - 1], fid), c.id, slots);
    } else {
      assert CoursesOf(courses[..n], fid) == CoursesOf(courses[..n - 1], fid);
    }
  }

  /**
   * What a valid schedule demands of its input: the courses of each faculty
   * member ask for no more sessions than there are slots, nor than a
   * positive max_hours. Whatever does not meet this has no valid schedule.
   */
  lemma FacultyCapacity(data: Data, y: Assignment, k: int)
    requires ValidSchedule(data, y)
    requires 0 <= k < |data.faculty|
    ensures RequiredLoad(data.courses, data.faculty[k].id) <= (if Slots(data) > 0 then Slots(data) else 0)
    ensures data.faculty[k].maxHours > 0 ==>
      RequiredLoad(data.courses, data.faculty[k].id) <= data.faculty[k].maxHours
  {
    var fid := data.faculty[k].id;
    var cids := CoursesOf(data.courses, fid);
    LoadIsRequired(data.courses, y, fid, Slots(data));
    LoadIsSlotTotal(y, cids, Slots(data));
    SlotTotalBound(y, cids, Slots(data));
  }

  // ---------------------------------------------------------------------
  // How the input shapes the constraints

  function AddUnavailable(data: Data, k: int, u: int): Data
    requires 0 <= k < |data.faculty|
  {
    var f := data.faculty[k];
    data.(faculty := data.faculty[k := f.(unavailable := f.unavailable + [u])])
  }

  /**
   * Marking one more slot unavailable never admits a new schedule, and an
   * entry outside 0..T-1 changes nothing (solver.py:75).
   */
  lemma AddUnavailableNarrows(data: Data, y: Assignment, k: int, u: int)
    requires 0 <= k < |data.faculty|
    ensures ValidSchedule(AddUnavailable(data, k, u), y) ==> ValidSchedule(data, y)
    ensures !(0 <= u < Slots(data)) ==>
      (ValidSchedule(AddUnavailable(data, k, u), y) <==> ValidSchedule(data, y))
  {
    var d' := AddUnavailable(data, k, u);
    assert forall j | 0 <= j < |data.faculty| :: d'.faculty[j].id == data.faculty[j].id;
    assert forall j | 0 <= j < |data.faculty| :: d'.faculty[j].maxHours == data.faculty[j].maxHours;
  }

  lemma {:induction false} CountSlotsOfNothing(cid: CourseId, n: int)
    ensures CountSlots({}, cid, n) == 0
    decreases n
  {
    if n > 0 {
      CountSlotsOfNothing(cid, n - 1);
    }
  }

  lemma {:induction false} CountAtOfNothing(cids: seq<CourseId>, t: int)
    ensures CountAt({}, cids, t) == 0
  {
    if |cids| > 0 {
      CountAtOfNothing(cids[..|cids| - 1], t);
    }
  }

  lemma {:induction false} LoadOfNothing(cids: seq<CourseId>, n: int)
    ensures Load({}, cids, n) == 0
  {
    if |cids| > 0 {
      LoadOfNothing(cids[..|cids| - 1], n);
      CountSlotsOfNothing(cids[|cids| - 1], n);
    }
  }

  /**
   * Scheduling nothing is valid exactly when no course asks for a session;
   * in particular an input without courses has the empty timetable.
   */
  lemma EmptyScheduleValid(data: Data)
    ensures ValidSchedule(data, {}) <==> forall i | 0 <= i < |data.courses| :: data.courses[i].sessions == 0
  {
    forall i | 0 <= i < |data.courses| {
      CountSlotsOfNothing(data.courses[i].id, Slots(data));
    }
    forall k, t | 0 <= k < |data.faculty| && 0 <= t < Slots(data) {
      CountAtOfNothing(CoursesOf(data.courses, data.faculty[k].id), t);
    }
    forall k | 0 <= k < |data.faculty| {
      LoadOfNothing(CoursesOf(data.courses, data.faculty[k].id), Slots(data));
    }
    forall k, t | 0 <= k < |data.students| && 0 <= t < Slots(data) {
      CountAtOfNothing(EnrolledOf(data.students, data.students[k].id), t);
    }
  }
}
