/**
 * The check-in/check-out toggle of `check_in`: from the attendance rows of
 * today it decides whether a request closes an open session, is refused
 * because a session is open elsewhere, or opens a new session.
 */
module Attendance {
  import opened Wrappers
  import opened Clock
  import opened Duration

  /**
   * A row of the `attendance` table. The TIME columns hold times of day;
   * `endTime == None` (SQL NULL) means the session is still open.
   */
  datatype Record = Record(
    employeeId: int,
    employeeName: string,
    date: string,
    startTime: TimeOfDay,
    endTime: Option<TimeOfDay>,
    location: string,
    duration: Option<string>)

  datatype ErrorReason =
    | InvalidId               // the request's id is not an integer
    | MissingLocation         // the location is empty
    | UnknownEmployee(id: int) // no row in `employees` has this id

  /** The reply of `check_in`, by its `type` field and the values its message shows. */
  datatype Outcome =
    | Error(reason: ErrorReason)
    | Warning(otherLocation: string)
    | CheckedIn(name: string, start: TimeOfDay, location: string)
    | CheckedOut(name: string, end: TimeOfDay, duration: string, location: string)

  predicate IsOpen(r: Record)
  {
    r.endTime.None?
  }

  /**
   * The WHERE clause of the two lookups: an open row of this employee on this
   * date, and at `location` too when one is given.
   */
  predicate OpenMatch(r: Record, employeeId: int, date: string, location: Option<string>): (b: bool)
    ensures b && location.Some? ==> OpenMatch(r, employeeId, date, None)
    decreases location.Some?
  {
    IsOpen(r) && r.employeeId == employeeId && r.date == date
    && (location.Some? ==> r.location == location.value)
  }

  /** `fetchone()` on that lookup: the first matching row in table order, if any. */
  function FirstOpen(rs: seq<Record>, employeeId: int, date: string, location: Option<string>): (k: Option<nat>)
    ensures k.Some? ==> k.value < |rs| && OpenMatch(rs[k.value], employeeId, date, location)
    ensures k.Some? ==> forall j :: 0 <= j < k.value ==> !OpenMatch(rs[j], employeeId, date, location)
    ensures k.None? <==> forall j :: 0 <= j < |rs| ==> !OpenMatch(rs[j], employeeId, date, location)
  {
    if rs == [] then None
    else if OpenMatch(rs[0], employeeId, date, location) then Some(0)
    else
      match FirstOpen(rs[1..], employeeId, date, location)
      case None => None
      case Some(i) => Some(i + 1)
  }

  /** The table invariant: an employee has at most one open session per day. */
  ghost predicate OneOpenPerDay(rs: seq<Record>)
  {
    forall i, j :: (0 <= i < |rs| && 0 <= j < |rs| && IsOpen(rs[i]) && IsOpen(rs[j])
                    && rs[i].employeeId == rs[j].employeeId && rs[i].date == rs[j].date) ==> i == j
  }

  /** The weaker invariant of one open session per (employee, date, location). */
  ghost predicate OneOpenPerLocation(rs: seq<Record>)
  {
    forall i, j :: (0 <= i < |rs| && 0 <= j < |rs| && IsOpen(rs[i]) && IsOpen(rs[j])
                    && rs[i].employeeId == rs[j].employeeId && rs[i].date == rs[j].date
                    && rs[i].location == rs[j].location) ==> i == j
  }

  lemma OneOpenPerDayIsStronger(rs: seq<Record>)
    requires OneOpenPerDay(rs)
    ensures OneOpenPerLocation(rs)
  {
  }

  /** Under the invariant the open row of a day is unique, so `fetchone()` has no choice to make. */
  lemma OpenRowUnique(rs: seq<Record>, employeeId: int, date: string, location: Option<string>, j: nat)
    requires OneOpenPerDay(rs)
    requires j < |rs| && OpenMatch(rs[j], employeeId, date, location)
    ensures FirstOpen(rs, employeeId, date, location) == Some(j)
  {
  }

  /** `str()` of the `start_time` value read back from the TIME column: the `HH:MM` written at check-in, then zero seconds. */
  function TimeColumnText(t: TimeOfDay): (s: string)
    ensures |s| == 8 && ParseHM(s[..5]) == Some(t) && s[5..] == ":00"
  {
    ParseFormatHM(t);
    FormatHM(t) + ":00"
  }

  /** The first five characters of the column's text (all of it when shorter): the "HH:MM" written at check-in. */
  function StartText(t: TimeOfDay): (s: string)
    ensures s == FormatHM(t)
  {
    var s := TimeColumnText(t);
    FormatParseHM(s[..5]);
    if |s| > 5 then s[..5] else s
  }

  /** The duration stored at check-out is always a real duration, never the sentinel. */
  lemma CheckoutDuration(start: TimeOfDay, now: TimeOfDay)
    ensures CalculateDuration(StartText(start), FormatHM(now)) == DurationText(Elapsed(start, now))
    ensures CalculateDuration(StartText(start), FormatHM(now)) != Unparseable
  {
    ParseFormatHM(start);
    ParseFormatHM(now);
  }

  /** The UPDATE of check-out: the one row gets its end time and duration. */
  function Close(r: Record, now: TimeOfDay, duration: string): (c: Record)
    ensures !IsOpen(c)
  {
    r.(endTime := Some(now), duration := Some(duration))
  }

  /** Closing a row never breaks the invariant. */
  lemma CloseKeepsOneOpenPerDay(rs: seq<Record>, k: nat, now: TimeOfDay, duration: string)
    requires OneOpenPerDay(rs) && k < |rs|
    ensures OneOpenPerDay(rs[k := Close(rs[k], now, duration)])
  {
    var rs' := rs[k := Close(rs[k], now, duration)];
    forall i, j | 0 <= i < |rs'| && 0 <= j < |rs'| && IsOpen(rs'[i]) && IsOpen(rs'[j])
                  && rs'[i].employeeId == rs'[j].employeeId && rs'[i].date == rs'[j].date
      ensures i == j
    {
      assert i != k && j != k;
      assert rs'[i] == rs[i] && rs'[j] == rs[j];
    }
  }

  /** Appending an open row for a day with no open row of that employee keeps the invariant. */
  lemma AppendKeepsOneOpenPerDay(rs: seq<Record>, r: Record)
    requires OneOpenPerDay(rs)
    requires FirstOpen(rs, r.employeeId, r.date, None) == None
    ensures OneOpenPerDay(rs + [r])
  {
    var rs' := rs + [r];
    forall i, j | 0 <= i < |rs'| && 0 <= j < |rs'| && IsOpen(rs'[i]) && IsOpen(rs'[j])
                  && rs'[i].employeeId == rs'[j].employeeId && rs'[i].date == rs'[j].date
      ensures i == j
    {
      if i < |rs| && j < |rs| {
        assert rs'[i] == rs[i] && rs'[j] == rs[j];
      }
    }
  }

  /** When `rs` has no matching row, the row appended after it is the first match, if it matches. */
  lemma FirstOpenAfterAppend(rs: seq<Record>, r: Record, employeeId: int, date: string, location: Option<string>)
    requires FirstOpen(rs, employeeId, date, location) == None
    ensures FirstOpen(rs + [r], employeeId, date, location)
            == if OpenMatch(r, employeeId, date, location) then Some(|rs|) else None
  {
    var rs' := rs + [r];
    assert forall j :: 0 <= j < |rs| ==> rs'[j] == rs[j];
    assert rs'[|rs|] == r;
  }

  /** The `employees` and `attendance` tables, as `check_in` sees them. */
  class AttendanceBook {
    var employees: map<int, string>
    var records: seq<Record>

    /** The request passes the three checks that come before the attendance lookups. */
    predicate Admitted(empId: Option<int>, location: string)
      reads this
    {
      empId.Some? && location != "" && empId.value in employees
    }

    constructor (employees: map<int, string>, records: seq<Record>)
      ensures this.employees == employees && this.records == records
    {
      this.employees := employees;
      this.records := records;
    }

    /**
     * `check_in` for the parsed id `empId` (None when `int()` rejects it), at
     * `location`, on the date `today` at the time of day `now`.
     */
    method CheckIn(empId: Option<int>, location: string, today: string, now: TimeOfDay) returns (outcome: Outcome)
      modifies this`records
      ensures empId.None? ==> outcome == Error(InvalidId)
      ensures empId.Some? && location == "" ==> outcome == Error(MissingLocation)
      ensures empId.Some? && location != "" && empId.value !in employees ==>
                outcome == Error(UnknownEmployee(empId.value))
      ensures outcome.Error? ==> records == old(records)
      ensures Admitted(empId, location) && FirstOpen(old(records), empId.value, today, Some(location)).Some? ==>
                var k := FirstOpen(old(records), empId.value, today, Some(location)).value;
                var duration := DurationText(Elapsed(old(records)[k].startTime, now));
                && outcome == CheckedOut(employees[empId.value], now, duration, location)
                && records == old(records)[k := Close(old(records)[k], now, duration)]
      ensures Admitted(empId, location) && FirstOpen(old(records), empId.value, today, Some(location)).None?
              && FirstOpen(old(records), empId.value, today, None).Some? ==>
                && outcome == Warning(old(records)[FirstOpen(old(records), empId.value, today, None).value].location)
                && records == old(records)
      ensures Admitted(empId, location) && FirstOpen(old(records), empId.value, today, None).None? ==>
                && outcome == CheckedIn(employees[empId.value], now, location)
                && records == old(records) + [Record(empId.value, employees[empId.value], today, now, None, location, None)]
      ensures outcome.Warning? ==> outcome.otherLocation != location && records == old(records)
      ensures OneOpenPerDay(old(records)) ==> OneOpenPerDay(records)
    {
      if empId.None? {
        return Error(InvalidId);
      }
      var e := empId.value;
      if location == "" {
        return Error(MissingLocation);
      }
      if e !in employees {
        return Error(UnknownEmployee(e));
      }
      var name := employees[e];
      var nowText := FormatHM(now);
      var openHere := FirstOpen(records, e, today, Some(location));
      if openHere.Some? {
        var k := openHere.value;
        var duration := CalculateDuration(StartText(records[k].startTime), nowText);
        CheckoutDuration(records[k].startTime, now);
        if OneOpenPerDay(records) {
          CloseKeepsOneOpenPerDay(records, k, now, duration);
        }
        records := records[k := Close(records[k], now, duration)];
        outcome := CheckedOut(name, now, duration, location);
      } else {
        var elsewhere := FirstOpen(records, e, today, None);
        if elsewhere.Some? {
          return Warning(records[elsewhere.value].location);
        }
        var row := Record(e, name, today, now, None, location, None);
        if OneOpenPerDay(records) {
          AppendKeepsOneOpenPerDay(records, row);
        }
        records := records + [row];
        outcome := CheckedIn(name, now, location);
      }
    }
  }

  /**
   * While a session is open at `a`, a request at another location `b` is
   * refused with a warning naming `a`, and only the check-in row was added.
   */
  method OpenThenConflict(book: AttendanceBook, e: int, a: string, b: string, today: string,
                          t1: TimeOfDay, t2: TimeOfDay)
    returns (o1: Outcome, o2: Outcome)
    requires e in book.employees && a != "" && b != "" && a != b
    requires FirstOpen(book.records, e, today, None) == None
    modifies book
    ensures book.employees == old(book.employees)
    ensures o1 == CheckedIn(old(book.employees)[e], t1, a)
    ensures o2 == Warning(a)
    ensures book.records == old(book.records) + [Record(e, old(book.employees)[e], today, t1, None, a, None)]
  {
    ghost var rs0 := book.records;
    var openRow := Record(e, book.employees[e], today, t1, None, a, None);
    o1 := book.CheckIn(Some(e), a, today, t1);
    assert book.records == rs0 + [openRow];
    FirstOpenAfterAppend(rs0, openRow, e, today, None);
    FirstOpenAfterAppend(rs0, openRow, e, today, Some(b));
    o2 := book.CheckIn(Some(e), b, today, t2);
  }

  /**
   * A second request at the location of the open session closes it with its
   * duration; a third opens a new, independent session there.
   */
  method CloseThenReopen(book: AttendanceBook, e: int, a: string, today: string,
                         t1: TimeOfDay, t2: TimeOfDay, t3: TimeOfDay, ghost rs0: seq<Record>)
    returns (o1: Outcome, o2: Outcome)
    requires e in book.employees && a != ""
    requires FirstOpen(rs0, e, today, None) == None
    requires book.records == rs0 + [Record(e, book.employees[e], today, t1, None, a, None)]
    modifies book
    ensures book.employees == old(book.employees)
    ensures var name, duration := old(book.employees)[e], DurationText(Elapsed(t1, t2));
            && o1 == CheckedOut(name, t2, duration, a)
            && o2 == CheckedIn(name, t3, a)
            && book.records == rs0 + [Record(e, name, today, t1, Some(t2), a, Some(duration)),
                                      Record(e, name, today, t3, None, a, None)]
  {
    var name := book.employees[e];
    var openRow := Record(e, name, today, t1, None, a, None);
    FirstOpenAfterAppend(rs0, openRow, e, today, Some(a));
    o1 := book.CheckIn(Some(e), a, today, t2);
    var closed := Close(openRow, t2, DurationText(Elapsed(t1, t2)));
    assert book.records == rs0 + [closed];
    FirstOpenAfterAppend(rs0, closed, e, today, None);
    o2 := book.CheckIn(Some(e), a, today, t3);
    assert book.records == rs0 + [closed] + [openRow.(startTime := t3)];
  }
}
