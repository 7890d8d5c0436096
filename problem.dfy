/** Optional and error-carrying results. */
module Wrappers {
  datatype Option<T> = None | Some(value: T)

  datatype Result<T, E> = Ok(value: T) | Err(error: E)
}

/**
 * The scheduling input of solver.py, with the defaults of its `.get` calls
 * already applied: a faculty member without `unavailable` or `preferred` has
 * empty lists, a missing or empty `max_hours` is 0, a student without
 * `enrolled` has an empty list and a course without `name` has "".
 */
module Problem {
  type CourseId = string
  type FacultyId = string
  type StudentId = string

  datatype Course = Course(id: CourseId, name: string, sessions: int, faculty: FacultyId)

  datatype Faculty = Faculty(id: FacultyId, unavailable: seq<int>, maxHours: int, preferred: seq<int>)

  datatype Student = Student(id: StudentId, enrolled: seq<CourseId>)

  datatype Data = Data(
    days: seq<string>,
    periodsPerDay: int,
    courses: seq<Course>,
    faculty: seq<Faculty>,
    students: seq<Student>)

  /** The true decision variables y[(course id, slot)] of a solution. */
  type Assignment = set<(CourseId, int)>

  /**
   * T = len(days) * periods_per_day (solver.py:27), written as a repeated
   * sum so that proofs meet the product only through NumSlotsIsProduct.
   * It is not positive when there is no slot.
   */
  function NumSlots(n: nat, ppd: int): int
  {
    if n == 0 then 0 else NumSlots(n - 1, ppd) + ppd
  }

  lemma {:induction false} NumSlotsIsProduct(n: nat, ppd: int)
    ensures NumSlots(n, ppd) == n * ppd
  {
    if n > 0 {
      NumSlotsIsProduct(n - 1, ppd);
      assert n * ppd == (n - 1) * ppd + ppd;
    }
  }

  function Slots(data: Data): int
  {
    NumSlots(|data.days|, data.periodsPerDay)
  }

  /** The set of all course identifiers: the first components of the keys of y. */
  function CourseIds(courses: seq<Course>): set<CourseId>
  {
    set i | 0 <= i < |courses| :: courses[i].id
  }

  /** A slot index of the grid lies on a day of `days`, with a positive period count. */
  lemma SlotBounds(n: nat, ppd: int, t: int)
    requires 0 <= t < NumSlots(n, ppd)
    ensures ppd > 0 && 0 <= t / ppd < n && 0 <= t % ppd < ppd
  {
    NumSlotsIsProduct(n, ppd);
    if ppd <= 0 {
      MulNonPositive(n, ppd);
      assert false;
    }
    var q := t / ppd;
    if q >= n {
      MulMonotone(n, q, ppd);
      assert false;
    }
  }

  lemma MulNonPositive(n: nat, k: int)
    requires k <= 0
    ensures n * k <= 0
  {
  }

  lemma MulMonotone(a: int, b: int, k: nat)
    requires a <= b
    ensures a * k <= b * k
  {
  }

  /** With a non-negative period count, more days never mean fewer slots. */
  lemma {:induction false} NumSlotsMonotone(a: nat, b: nat, ppd: int)
    requires a <= b && ppd >= 0
    ensures 0 <= NumSlots(a, ppd) <= NumSlots(b, ppd)
    decreases b
  {
    if b > 0 {
      if a == b {
        NumSlotsMonotone(a - 1, b - 1, ppd);
      } else {
        NumSlotsMonotone(a, b - 1, ppd);
      }
    }
  }
}

/** Counting the entries of a sequence that satisfy a test. */
module Counting {
  function CountIf<T>(xs: seq<T>, p: T -> bool): (r: nat)
    ensures r <= |xs|
  {
    if |xs| == 0 then 0 else
      var n := |xs| - 1;
      CountIf(xs[..n], p) + (if p(xs[n]) then 1 else 0)
  }

  /** No entry passes exactly when the count is 0; all pass exactly when it is the length. */
  lemma {:induction false} CountIfExtremes<T>(xs: seq<T>, p: T -> bool)
    ensures CountIf(xs, p) == 0 <==> forall k | 0 <= k < |xs| :: !p(xs[k])
    ensures CountIf(xs, p) == |xs| <==> forall k | 0 <= k < |xs| :: p(xs[k])
  {
    if |xs| > 0 {
      var n := |xs| - 1;
      CountIfExtremes(xs[..n], p);
      assert forall k | 0 <= k < n :: xs[..n][k] == xs[k];
    }
  }

  lemma {:induction false} CountIfAppend<T>(xs: seq<T>, ys: seq<T>, p: T -> bool)
    ensures CountIf(xs + ys, p) == CountIf(xs, p) + CountIf(ys, p)
  {
    if |ys| > 0 {
      var n := |ys| - 1;
      CountIfAppend(xs, ys[..n], p);
      assert (xs + ys)[..|xs| + n] == xs + ys[..n];
    } else {
      assert xs + ys == xs;
    }
  }
}
