/**
 * The timeslot grid of solver.py:10-16: `days` times `periods_per_day` slots,
 * numbered day by day, with 1-based periods and a "day-Pn" label.
 */
module Grid {
  import opened Problem

  datatype Timeslot = Timeslot(id: int, day: string, period: int, labelText: string)

  function DigitChar(d: nat): (c: char)
    requires d < 10
    ensures '0' <= c <= '9'
  {
    "0123456789"[d]
  }

  /** The character of a digit has that digit's value. */
  lemma DigitValueOfChar(d: nat)
    requires d < 10
    ensures DigitValue(DigitChar(d)) == d
  {
    assert "0123456789"[d] as int - '0' as int == d;
  }

  function DigitValue(c: char): nat
  {
    if '0' <= c <= '9' then (c as int) - ('0' as int) else 0
  }

  /** The decimal rendering of `n`, as Python's f-string writes an int. */
  function Decimal(n: nat): (s: string)
    ensures |s| >= 1
    ensures forall i | 0 <= i < |s| :: '0' <= s[i] <= '9'
    ensures DecimalValue(s) == n
  {
    var last := [DigitChar(n % 10)];
    DigitValueOfChar(n % 10);
    if n < 10 then last else
      var s := Decimal(n / 10) + last;
      assert s[..|s| - 1] == Decimal(n / 10);
      s
  }

  /** The number a string of decimal digits denotes. */
  function DecimalValue(s: string): nat
  {
    if |s| == 0 then 0 else 10 * DecimalValue(s[..|s| - 1]) + DigitValue(s[|s| - 1])
  }

  /** Decimal text has no leading zero: one digit below 10, a non-zero first digit from 10 on. */
  lemma {:induction false} DecimalCanonical(n: nat)
    ensures |Decimal(n)| == 1 <==> n < 10
    ensures n >= 10 ==> Decimal(n)[0] != '0'
  {
    if n >= 10 {
      DecimalCanonical(n / 10);
      assert Decimal(n)[0] == Decimal(n / 10)[0];
      if n / 10 < 10 {
        assert Decimal(n / 10)[0] == DigitChar(n / 10);
        DigitValueOfChar(n / 10);
      }
    }
  }

  /** A digit is the character of its value. */
  lemma DigitCharOfValue(c: char)
    requires '0' <= c <= '9'
    ensures DigitChar(DigitValue(c)) == c
  {
    var d := DigitValue(c);
    assert "0123456789"[d] == c by {
      assert "0123456789"[c as int - '0' as int] == c;
    }
  }

  /** A digit string with no leading zero denotes a positive number. */
  lemma {:induction false} LeadingDigitPositive(s: string)
    requires |s| >= 1 && '1' <= s[0] <= '9'
    requires forall i | 0 <= i < |s| :: '0' <= s[i] <= '9'
    ensures DecimalValue(s) >= 1
  {
    if |s| > 1 {
      LeadingDigitPositive(s[..|s| - 1]);
    }
  }

  /**
   * Decimal text is canonical: the only digit string without a leading zero
   * (or of a single digit) that denotes `n` is `Decimal(n)`.
   */
  lemma {:induction false} DecimalUnique(s: string, n: nat)
    requires |s| >= 1 && (|s| > 1 ==> s[0] != '0')
    requires forall i | 0 <= i < |s| :: '0' <= s[i] <= '9'
    requires DecimalValue(s) == n
    ensures s == Decimal(n)
  {
    var k := |s| - 1;
    DigitCharOfValue(s[k]);
    if k == 0 {
      assert s == [DigitChar(n % 10)];
    } else {
      var prefix := s[..k];
      assert prefix[0] == s[0];
      LeadingDigitPositive(prefix);
      assert n / 10 == DecimalValue(prefix) && n % 10 == DigitValue(s[k]);
      DecimalUnique(prefix, n / 10);
      assert s == prefix + [s[k]];
    }
  }

  /** The `label` field: f"{d}-P{p+1}" at solver.py:15. */
  function Label(day: string, period: nat): string
  {
    day + "-P" + Decimal(period)
  }

  /**
   * The entry with id t that timeslot_map appends while walking the first d
   * days: slots NumSlots(d - 1, ppd) onwards belong to day d - 1.
   */
  function SlotIn(days: seq<string>, ppd: int, d: nat, t: int): (s: Timeslot)
    requires d <= |days| && 0 <= t < NumSlots(d, ppd)
    ensures s.id == t && 1 <= s.period <= ppd && s.day in days
    ensures s.labelText == Label(s.day, s.period)
  {
    if t < NumSlots(d - 1, ppd) then SlotIn(days, ppd, d - 1, t) else
      var p := t - NumSlots(d - 1, ppd) + 1;
      Timeslot(t, days[d - 1], p, Label(days[d - 1], p))
  }

  /** Slot t of the grid (solver.py:12-15). */
  function SlotAt(days: seq<string>, ppd: int, t: int): (s: Timeslot)
    requires 0 <= t < NumSlots(|days|, ppd)
    ensures s.id == t && 1 <= s.period <= ppd && s.day in days
    ensures s.labelText == Label(s.day, s.period)
  {
    SlotIn(days, ppd, |days|, t)
  }

  /** Period p of day d is the slot numbered NumSlots(d, ppd) + p - 1, whatever days follow. */
  lemma {:induction false} SlotInOfPeriod(days: seq<string>, ppd: int, n: nat, d: nat, p: int)
    requires d < n <= |days| && 1 <= p <= ppd
    ensures 0 <= NumSlots(d, ppd) + p - 1 < NumSlots(n, ppd)
    ensures SlotIn(days, ppd, n, NumSlots(d, ppd) + p - 1) ==
      Timeslot(NumSlots(d, ppd) + p - 1, days[d], p, Label(days[d], p))
    decreases n
  {
    NumSlotsMonotone(0, d, ppd);
    if n > d + 1 {
      SlotInOfPeriod(days, ppd, n - 1, d, p);
    }
  }

  /** Slot t lies on day t / ppd, at period t % ppd + 1. */
  lemma SlotAtFields(days: seq<string>, ppd: int, t: int)
    requires 0 <= t < NumSlots(|days|, ppd)
    ensures ppd > 0 && 0 <= t / ppd < |days|
    ensures SlotAt(days, ppd, t).day == days[t / ppd] && SlotAt(days, ppd, t).period == t % ppd + 1
  {
    SlotBounds(|days|, ppd, t);
    var d, p := t / ppd, t % ppd;
    NumSlotsIsProduct(d, ppd);
    assert t == d * ppd + p;
    SlotInOfPeriod(days, ppd, |days|, d, p + 1);
  }

  /** Each (day, period) pair of the grid is reached by exactly the slot d * ppd + p - 1. */
  lemma SlotOfDayPeriod(days: seq<string>, ppd: int, d: int, p: int)
    requires 0 <= d < |days| && 1 <= p <= ppd
    ensures 0 <= d * ppd + p - 1 < NumSlots(|days|, ppd)
    ensures SlotAt(days, ppd, d * ppd + p - 1).day == days[d]
    ensures SlotAt(days, ppd, d * ppd + p - 1).period == p
  {
    NumSlotsIsProduct(d, ppd);
    SlotInOfPeriod(days, ppd, |days|, d, p);
  }

  /** The whole grid: one entry per slot of range(T), entry t being slot t. */
  ghost function WeekGrid(days: seq<string>, ppd: int): (g: seq<Timeslot>)
    ensures |g| == (if NumSlots(|days|, ppd) > 0 then NumSlots(|days|, ppd) else 0)
    ensures forall t | 0 <= t < |g| :: t < NumSlots(|days|, ppd) && g[t] == SlotAt(days, ppd, t)
  {
    seq(if NumSlots(|days|, ppd) > 0 then NumSlots(|days|, ppd) else 0,
        t requires 0 <= t < NumSlots(|days|, ppd) => SlotAt(days, ppd, t))
  }

  /** `out` holds the first |out| slots of the grid. */
  ghost predicate IsGridPrefix(days: seq<string>, ppd: int, out: seq<Timeslot>)
  {
    |out| <= |WeekGrid(days, ppd)| && forall t | 0 <= t < |out| :: out[t] == WeekGrid(days, ppd)[t]
  }

  /** timeslot_map (solver.py:10-16): len(days) * periods_per_day entries, entry t being slot t. */
  method TimeslotMap(days: seq<string>, ppd: int) returns (out: seq<Timeslot>)
    ensures |out| == |days| * (if ppd > 0 then ppd else 0)
    ensures out == WeekGrid(days, ppd)
  {
    out := [];
    var d := 0;
    while d < |days|
      invariant 0 <= d <= |days|
      invariant |out| == NumSlots(d, if ppd > 0 then ppd else 0)
      invariant IsGridPrefix(days, ppd, out)
    {
      out := AppendDay(days, ppd, d, out);
      d := d + 1;
    }
    NumSlotsIsProduct(|days|, if ppd > 0 then ppd else 0);
    NumSlotsIsProduct(|days|, ppd);
    if ppd <= 0 {
      MulNonPositive(|days|, ppd);
    }
    assert |out| == |WeekGrid(days, ppd)|;
  }

  /** The inner loop of timeslot_map (solver.py:13-15): the periods of day d, in order. */
  method AppendDay(days: seq<string>, ppd: int, d: int, out0: seq<Timeslot>) returns (out: seq<Timeslot>)
    requires 0 <= d < |days|
    requires |out0| == NumSlots(d, if ppd > 0 then ppd else 0)
    requires IsGridPrefix(days, ppd, out0)
    ensures |out| == NumSlots(d + 1, if ppd > 0 then ppd else 0)
    ensures IsGridPrefix(days, ppd, out)
  {
    out := out0;
    var p := 0;
    while p < ppd
      invariant 0 <= p <= (if ppd > 0 then ppd else 0)
      invariant |out| == NumSlots(d, if ppd > 0 then ppd else 0) + p
      invariant IsGridPrefix(days, ppd, out)
    {
      var t := d * ppd + p;
      GridPrefixStep(days, ppd, d, p, out);
      out := out + [Timeslot(t, days[d], p + 1, Label(days[d], p + 1))];
      p := p + 1;
    }
  }

  /** Appending period p + 1 of day d after slot NumSlots(d, ppd) + p - 1 extends the grid prefix. */
  lemma GridPrefixStep(days: seq<string>, ppd: int, d: int, p: int, out: seq<Timeslot>)
    requires 0 <= d < |days| && 0 <= p < ppd
    requires |out| == NumSlots(d, ppd) + p
    requires IsGridPrefix(days, ppd, out)
    ensures d * ppd + p == |out|
    ensures IsGridPrefix(days, ppd, out + [Timeslot(|out|, days[d], p + 1, Label(days[d], p + 1))])
  {
    NumSlotsIsProduct(d, ppd);
    SlotInOfPeriod(days, ppd, |days|, d, p + 1);
    assert Timeslot(|out|, days[d], p + 1, Label(days[d], p + 1)) == WeekGrid(days, ppd)[|out|];
  }

  /**
   * `times_map = {t["id"]: t for t in times}` (solver.py:125): the keys are
   * the ids in `times`, and each key maps to an entry of `times` carrying it.
   */
  function ById(times: seq<Timeslot>): (m: map<int, Timeslot>)
    ensures m.Keys == set i | 0 <= i < |times| :: times[i].id
    ensures forall k | k in m :: m[k].id == k && m[k] in times
  {
    if |times| == 0 then map[] else
      var n := |times| - 1;
      var prev := ById(times[..n]);
      assert forall i | 0 <= i < n :: times[..n][i] == times[i];
      prev[times[n].id := times[n]]
  }

  /** In the grid the slot ids are the positions, so times_map[t] is slot t. */
  lemma {:induction false} ByIdOfGrid(times: seq<Timeslot>, t: int)
    requires forall i | 0 <= i < |times| :: times[i].id == i
    requires 0 <= t < |times|
    ensures t in ById(times) && ById(times)[t] == times[t]
  {
    assert times[t].id == t;
    var s := ById(times)[t];
    var j :| 0 <= j < |times| && times[j] == s;
    assert j == s.id == t;
  }
}
