# timetable-gen scheduling rules in Dafny

This project models `build_and_solve` and `timeslot_map` of the timetable
generator `solver.py`. That code turns a JSON description of days, periods,
courses, faculty and students into a weekly timetable with the CP-SAT solver.
The solver's search is not modelled. It becomes a parameter: either no
assignment, or some set of true variables `y[(course id, t)]` that satisfies
every hard constraint. The rest of the program is modelled and proved:

- `Grid`: the slot grid. `timeslot_map` is a nested loop (`Grid.TimeslotMap`).
  It is proved equal to the ghost grid `WeekGrid`, whose entry t is on day
  `t / ppd` at period `t % ppd + 1` (`Grid.SlotAtFields`).
- `Indexes`: the `faculty_courses` and `student_courses` tables.
  - Each is a loop that fills a map.
  - A later student entry overwrites an earlier one with the same id.
- `Constraints`: the hard constraints as predicates over the set of true
  variables.
  - `ValidSchedule` holds when all of them hold.
  - Lemmas state what the constraints mean for the input's own courses,
    faculty and students.
- `Extraction`: the row-building loop (`Extraction.ExtractRows`). It is proved
  equal to the ghost function `Rows`: one row per true variable, in course
  order, then by ascending slot.
- `Guarantees`: what the returned rows promise under a valid assignment.
  - The number of rows.
  - Each course's number of rows.
  - No faculty or student double-booking.
  - Availability and load limits.
  - Day and period read off the grid.
- `Objective`: the penalty terms loop. The lemmas show that the minimised sum
  is the number of returned rows outside their faculty member's preferred
  slots.
- `Scheduler`: all of `build_and_solve`. The method `Scheduler.BuildAndSolve`
  is proved equal to the ghost function `Outcome`. Its three error outcomes
  are:
  - too many sessions, the `SystemExit`;
  - an unknown course in a student's list, the `KeyError` of line 95;
  - no solution, the `None` return.

Integers are unbounded, as in the Python code (the solver library's 64-bit limit is under "## Left out"). `periods_per_day` is any `int`, and
`T = len(days) * periods_per_day` may be zero or negative. In that case
`range(T)` is empty.

The model follows `solver.py` as written. That code has no rooms, no session
durations, no student groups, a single faculty member per course and no
structured status codes, so none of these is modelled. The
faculty double-booking and availability constraints cover only faculty
members listed in `faculty`. A course whose `faculty` id is not listed has no
such constraint. `Guarantees.RowsNoFacultyClash` is stated accordingly.

Two facts about duplicate ids follow from the code:

- Several course entries with one id share the variables `y[(id, t)]`. Every
  entry is checked and summed. The rows of that id then number the id's
  scheduled slots once per entry (`Guarantees.CourseRowCount`).
- Several student entries with one id all use the list of the last entry.
  The dictionary is built before the constraints are posted.

## Model

| member | source | states |
|---|---|---|
| Problem.NumSlotsIsProduct | solver.py:27 | The slot count T, built day by day, equals `len(days) * periods_per_day` |
| Problem.SlotBounds | solver.py:12-14 | A slot index below T implies a positive period count, a day index `t / ppd` within `days` and a period index `t % ppd` in `0..ppd-1` |
| Problem.NumSlotsMonotone | solver.py:12-14 | With non-negative ppd, more days never give fewer slots, and the count is never negative |
| Counting.CountIfExtremes | solver.py:107 | The number of true penalty terms (or of rows passing a test) is 0 exactly when none passes, and is the length exactly when all pass |
| Counting.CountIfAppend | solver.py:107 | The true terms (or passing rows) of two consecutive runs of the list add up |
| Grid.Decimal | solver.py:15 | The decimal text of a number is non-empty, is all digits and denotes that number |
| Grid.DecimalCanonical | solver.py:15 | The text has one digit exactly below 10, and from 10 on its first digit is not '0' |
| Grid.DecimalUnique | solver.py:15 | Any digit string without a leading zero that denotes n is the text of n, so the label's period text is determined |
| Grid.SlotAt | solver.py:12-15 | Slot t has id t, a period in `1..ppd`, a day of `days` and the label "day-Pn" |
| Grid.SlotInOfPeriod | solver.py:12-15 | Period p of day d is the slot `d*ppd + p - 1` of the walk over any longer list of days |
| Grid.SlotAtFields | solver.py:12-15 | Slot t lies on day `days[t / ppd]` at period `t % ppd + 1` |
| Grid.SlotOfDayPeriod | solver.py:12-15 | Each (day, period) pair is reached by the slot `d*ppd + p - 1`, which is in range |
| Grid.WeekGrid | solver.py:10-16 | The grid has max(T, 0) entries, and entry t is slot t |
| Grid.TimeslotMap | solver.py:10-16 | The nested loop returns `len(days) * max(ppd, 0)` entries, exactly the grid |
| Grid.AppendDay | solver.py:13-15 | The inner loop appends the slots of one day and keeps the output a prefix of the grid |
| Grid.ById | solver.py:125 | `times_map` has exactly the ids of `times` as keys, and each key maps to an entry with that id |
| Grid.ByIdOfGrid | solver.py:125 | When ids are positions, as in the grid, `times_map[t]` is entry t |
| Indexes.CoursesOf | solver.py:44 | A course id is in the faculty member's list exactly when some course entry has that id and that faculty |
| Indexes.CoursesOfCount | solver.py:44 | The list holds each course id once per course entry with that id and that faculty |
| Indexes.CoursesOfLength | solver.py:44 | The list has exactly one entry per course entry of the member |
| Indexes.CoursesOfKeepsOrder | solver.py:44 | Two courses of one faculty member keep their input order in its list |
| Indexes.EnrolledOfLast | solver.py:47-49 | A student id maps to the list of its last entry, and an id nobody has maps to the empty list |
| Indexes.FacultyCourses | solver.py:42-44 | The loop builds a table keyed by exactly the faculty ids, each key holding that member's course list |
| Indexes.StudentCourses | solver.py:47-49 | The loop builds a table keyed by exactly the student ids, each key holding the list of the last entry with that id |
| Constraints.CountSlots | solver.py:66 | A course's per-week sum is at most max(T, 0) |
| Constraints.CountSlotsIsSetSize | solver.py:66 | A course's per-week sum is the size of the set of its scheduled slots, so its sessions are distinct slots |
| Constraints.CountAtAtMostOne | solver.py:80 | A per-slot sum of at most one holds exactly when no two list entries are both scheduled there (both directions) |
| Constraints.FacultyNeverDoubleBooked | solver.py:78-80 | Two different course entries of one listed faculty member are never scheduled in the same slot |
| Constraints.StudentNeverDoubleBooked | solver.py:90-95 | Two different courses in a student's resolved list are never scheduled in the same slot |
| Constraints.UnavailableNeverScheduled | solver.py:71-76 | A course is never scheduled at an in-range unavailable slot of a listed faculty member whose course it is |
| Constraints.LoadIsSlotTotal | solver.py:80-86 | The weekly load sum equals the sum over slots of the per-slot sums |
| Constraints.LoadIsRequired | solver.py:63-66 | Under the session constraint, a faculty member's load is the sessions its courses ask for |
| Constraints.FacultyCapacity | solver.py:78-88 | A valid schedule needs each listed member's courses to ask for at most max(T, 0) sessions, and at most a positive `max_hours` |
| Constraints.AddUnavailableNarrows | solver.py:71-76 | One more unavailable slot never admits a new schedule, and an entry outside `0..T-1` changes nothing (both directions) |
| Constraints.EmptyScheduleValid | solver.py:62-95 | Scheduling nothing is valid exactly when every course asks for 0 sessions |
| Extraction.CourseSources | solver.py:129-130 | The true slots of course i below m number its per-course sum, and are of course i, in range and true |
| Extraction.CourseSourcesAscending | solver.py:129 | Inside one course the slots ascend strictly |
| Extraction.SourcesScheduled | solver.py:130 | Every (course, slot) pair that gives a row is a true variable |
| Extraction.SourcesOrdered | solver.py:127-129 | The pairs that give rows come in course order, then by ascending slot |
| Extraction.RowsOfAt | solver.py:131-139 | Row k carries course k's id, name and faculty, slot t, and day and period of grid entry t |
| Extraction.GridMap | solver.py:124-125 | `times` is the grid and `times_map[t]` is its entry t for every slot |
| Extraction.ExtractRows | solver.py:123-140 | The extraction loop returns exactly the rows of the solution |
| Extraction.AppendCourseRows | solver.py:127-140 | One outer turn appends exactly the rows of course i |
| Extraction.AppendSlotRow | solver.py:129-140 | One inner turn appends course i's row at slot t exactly when y makes it true |
| Extraction.SourcesComplete | solver.py:127-130 | A pair (i, t) gives a row exactly when i is a course position, t is in `range(T)` and `y[(id, t)]` is true |
| Extraction.SourcesCount | solver.py:127-130 | There are as many rows as the sum of the per-course sums |
| Extraction.RowsOfAppend | solver.py:126-140 | The rows of two runs of pairs are the two lists of rows, concatenated |
| Guarantees.RowsEnumerateSolution | solver.py:123-140 | Row k is the row of the k-th true variable, in course order and then ascending slot, and every true variable has its row |
| Guarantees.RowCount | solver.py:123-140 | A valid schedule yields sum(sessions_per_week) rows |
| Guarantees.RowsOnGrid | solver.py:131-139 | Every row's slot is in range, and its day is `days[t / ppd]` and its period is `t % ppd + 1`, within `1..ppd` |
| Guarantees.RowsNoFacultyClash | solver.py:78-80 | Two rows at one slot never name the same listed faculty member |
| Guarantees.RowsNoStudentClash | solver.py:90-95 | Two rows at one slot for different courses are never both in a student's list |
| Guarantees.RowsRespectAvailability | solver.py:71-76 | No row puts a listed faculty member at one of its unavailable slots |
| Guarantees.LoadOfUnique | solver.py:56-58 | When only entry i carries its id, the summed slots of that id are entry i's |
| Guarantees.FacultyRowCount | solver.py:127-140 | Over any grid, the rows naming faculty `fid` number that member's weekly load sum |
| Guarantees.CourseRowCount | solver.py:127-140 | Over any grid, the rows naming a course id number the id's scheduled slots once per entry that has the id |
| Guarantees.RowsCoverCourses | solver.py:63-66 | A course whose id no other entry shares appears in exactly sessions_per_week rows |
| Guarantees.RowsRespectLoad | solver.py:82-88 | A listed member's rows number at most max(T, 0), and at most a positive `max_hours` |
| Objective.PreferredOfFirst | solver.py:102 | The preferred slots come from the first faculty entry with the id, or are empty when none has it |
| Objective.Penalty | solver.py:107 | sum(penalty_terms) counts at most all the terms |
| Objective.PenaltyTerms | solver.py:98-105 | The nested loop builds exactly the terms of every course entry, in course order |
| Objective.AppendCourseTerms | solver.py:103-105 | One outer turn appends the terms of one course for the slots of `range(T)` outside `pref` |
| Objective.CourseTermsMembership | solver.py:103-105 | A course has a term for slot t exactly when t is in `range(T)` and not preferred |
| Objective.TermsSound | solver.py:99-105 | Every term is `y[(cid, t)]` for t in `range(T)` and some entry of `cid` whose faculty member does not prefer t |
| Objective.TermsComplete | solver.py:99-105 | Every entry has a term for each slot of `range(T)` its faculty member does not prefer |
| Objective.TermsCount | solver.py:98-107 | Over any grid, the terms that y makes true number the rows outside their faculty member's preferred slots |
| Objective.PenaltyCountsRows | solver.py:97-107 | For any solution, the minimised sum is the number of returned rows whose slot the faculty member does not prefer |
| Objective.PenaltyBounds | solver.py:97-107 | Under a valid schedule the penalty is at most sum(sessions_per_week), and it is 0 exactly when every row is at a preferred slot |
| Scheduler.FirstOverfull | solver.py:34-38 | The check stops at the first course asking for more than T sessions, and every earlier course asks for at most T |
| Scheduler.PreCheck | solver.py:34-38 | The loop stops at exactly that first over-full course, or at the end |
| Scheduler.DecisionVariables | solver.py:54-58 | The keys of y are exactly the pairs of a course id and a slot of `range(T)` |
| Scheduler.AddCourseVariables | solver.py:55-58 | One outer turn adds the keys of exactly one more course id |
| Scheduler.FirstNotIn | solver.py:95 | The first entry of a course list with no key, or the end, with every earlier entry known |
| Scheduler.UnknownFrom | solver.py:91-95 | No missing key is found exactly when every student's list names only known courses; a found one is an unknown course in that student's list |
| Scheduler.FirstMissing | solver.py:95 | The scan at t = 0 stops at the first course whose key `y[(cid, 0)]` is missing |
| Scheduler.EnrolmentCheck | solver.py:91-95 | The student loop raises KeyError exactly for the first missing key it reads, and never when `range(T)` is empty |
| Scheduler.BuildAndSolve | solver.py:24-140 | build_and_solve returns what `Outcome` says: over-full course, unknown course, no solution, or the timetable of the solver's assignment |
| Scheduler.RejectsOverfull | solver.py:34-38 | The input is rejected before solving exactly when some course asks for more than T sessions, and the error names the first one |
| Scheduler.RejectsUnknownCourse | solver.py:90-95 | KeyError happens exactly when no course is over-full, T > 0 and some student's list names an unknown course id, and the error names one |
| Scheduler.AcceptsSolved | solver.py:117-140 | Rows come back exactly when both checks pass and the solver finds an assignment; they are its timetable, with sum(sessions_per_week) rows |
| Scheduler.PreCheckKeepsSchedulable | solver.py:34-38 | With T ≥ 0, the pre-check never rejects an input that has a valid schedule |

## Left out

- The CP-SAT model and search are left out, because they are a foreign library with parallel, time-bounded search. This covers `CpModel`, `NewBoolVar`, `Minimize`, `Solve`, the worker count and the time limit. The answer is the parameter `solved`. When present, it is only assumed to satisfy `ValidSchedule`. Its optimality (the least penalty) is not claimed, and OPTIMAL and FEASIBLE are not told apart.
- JSON loading, CSV writing, the `print` diagnostics and the `__main__` driver are file and console I/O.
- The `SystemExit` of the pre-check ends the process. It is modelled as the error value `TooManySessions` instead.
- The input is taken with the defaults of its `.get` calls already applied: no `unavailable` or `preferred` means an empty list, a missing or falsy `max_hours` means 0, a missing `enrolled` means an empty list and a missing `name` means "". The `int(...)` conversions of strings and floats are not modelled, so the fields are already integers.
- A course without a `faculty` field is not modelled, because every modelled course has that field. In the source it raises KeyError at line 44 when the `faculty` list is non-empty. With an empty `faculty` list, line 44 never runs, and the KeyError comes at line 101, after the student loop, whose own KeyError of line 95 may come first.
- The student constraints are read only far enough to find the KeyError. Once no key is missing, what the loop adds to the model is the predicate `NoStudentClash`.
- The constraints the Python loops post are not modelled as a list. They are modelled as the predicates of `Constraints`, which say the same about an assignment.
- Grid.ById: states only that each key maps to an entry carrying that id, not that a later entry with a repeated id wins, because the grid never repeats an id (`Grid.ByIdOfGrid`).
- Guarantees.RowsCoverCourses: requires that no other course entry shares the id. With duplicates, `Guarantees.CourseRowCount` gives the general count.
- CP-SAT's 64-bit bounds are not modelled: `sessions_per_week` and `max_hours` enter the linear constraints of lines 66 and 85-88, and a value outside the library's 64-bit range makes model building raise. The model's integers are unbounded, so that exception is not part of `Outcome`.
