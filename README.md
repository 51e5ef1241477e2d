# Attendance tracker core, modelled in Dafny

The application is a small Flask web service. Employees sign up and log in,
pick a work location, and press one button that checks them in or out for the
day. The model covers the three pieces of logic under its HTTP handlers:

- **Duration calculator** (`calculate_duration`). It parses two `HH:MM` readings
  the way `datetime.strptime(s, "%H:%M")` does. When the end is earlier than the
  start it wraps past midnight. It writes the result as `"{h}h {m}m"`, and returns
  the sentinel `"Hesaplanamadı"` when either reading does not parse.
  Modules `Clock` and `Duration`.
- **Attendance toggle** (`check_in`). Class `Attendance.AttendanceBook` holds the
  `employees` table as a map from id to name and the `attendance` table as a
  sequence of rows. A request closes the open row of that employee, date and
  location. It is refused with a warning when a row of that day is open at
  another location. Otherwise it appends a new open row. Each branch is stated
  against the old table, and every branch keeps the invariant "at most one open
  row per employee per day".
- **Credential store** (`signup`, `login`). Class `Credentials.UserTable` holds
  the `users` table as a map from email to `(id, digest, name)`, plus the next
  value of its SERIAL id sequence. `hash_password` is the class's constant
  function `hash`.

Module `Text` holds Python's `str.strip()` (full `str.isspace` character set) and
`str(n)` for non-negative integers. `Wrappers` holds `Option`.

The clock and the request are inputs to the model. `datetime.now()` becomes the
`today` and `now` parameters of `CheckIn`. The parsed request fields become
method parameters.

`signup` rejects only blank fields; there is no password-length or `@` check.
It writes only to `users` and never reads or creates an `employees` row.

## Model

| member | source | states |
|---|---|---|
| `Text.TrimLeft` | app.py:346-347 | the result is a suffix of the input; everything removed is whitespace; the result does not start with whitespace |
| `Text.TrimRight` | app.py:346-347 | the result is a prefix of the input; everything removed is whitespace; the result does not end with whitespace |
| `Text.Strip` | app.py:346-347 | `str.strip()`: the result has no whitespace at either end and is no longer than the input |
| `Text.StripRemovesOnlySpace` | app.py:346-347 | the input is some whitespace, then the stripped result, then some whitespace |
| `Text.StripFramed` | app.py:346-347 | anything framed by whitespace strips to its trimmed middle, so the result is unique |
| `Text.StripBlank` | app.py:351 | a stripped field is empty exactly when the field is all whitespace (both directions) |
| `Text.StripIdempotent` | app.py:390 | stripping twice is stripping once |
| `Text.NatToDecimal` | app.py:51 | `str(n)`: a non-empty string of digits with no leading zero; a leading `0` means the whole text is "0" |
| `Text.DecimalRoundTrip` | app.py:51 | reading the decimal digits back gives n |
| `Clock.HourField` | app.py:44-45 | `%H` fails exactly when the text does not start with a digit; otherwise it takes two digits exactly when the second character is a digit and the two-digit value is at most 23, else one; the digits taken are the field's value, at most 23 |
| `Clock.MinuteField` | app.py:44-45 | `%M` fails exactly when the text does not start with a digit; otherwise it takes two digits exactly when the second character is a digit and the two-digit value is at most 59, else one; the digits taken are the field's value, at most 59 |
| `Clock.ParseHM` | app.py:44-45 | an accepted reading has 3 to 5 characters and contains the colon |
| `Clock.FormatHM` | app.py:682 | `strftime("%H:%M")` writes five characters with the colon in the middle (zero-padded fields; their values are fixed by `ParseFormatHM`) |
| `Clock.ParseFormatHM` | app.py:682 | every `strftime("%H:%M")` reading parses back to the same time of day |
| `Clock.FormatParseHM` | app.py:44-45 | a 5-character reading that parses is already in canonical `HH:MM` form |
| `Clock.ParseHMShortFields` | app.py:44-45 | one-digit hour and minute fields are accepted ("9:05", "23:5", "7:5") |
| `Clock.ParseHMRejects` | app.py:44-45 | hour 24, minute 60, trailing seconds and the empty string are rejected |
| `Duration.Elapsed` | app.py:46-48 | the elapsed minutes are below 1440 and the clock reads the end that many minutes after the start |
| `Duration.ElapsedIsDifferenceModDay` | app.py:46-48 | the elapsed minutes equal (end - start) mod 1440 |
| `Duration.ElapsedUnique` | app.py:46-48 | any value below 1440 that lands on the end is the elapsed value |
| `Duration.DurationText` | app.py:49-51 | `f"{hours}h {minutes}m"` is at least as long as "0h 0m" and ends in 'm' (its content is fixed by `NatToDecimal`'s contract together with `DurationTextRoundTrip`) |
| `Duration.DurationTextRoundTrip` | app.py:49-51 | `"{h}h {m}m"` reads back as h = total div 60 and m = total mod 60 |
| `Duration.UnparseableIsNoDuration` | app.py:52-53 | the sentinel never reads as a duration |
| `Duration.DurationTextIsNotUnparseable` | app.py:49-53 | a formatted duration is never the sentinel |
| `Duration.CalculateDuration` | app.py:41-53 | the result is the sentinel exactly when a reading does not parse (both directions) |
| `Duration.CalculateDurationMeaning` | app.py:41-51 | for parseable readings the result is exactly `"{h}h {m}m"` for total = (end - start) mod 1440, and it names h hours and m minutes with 60h + m = (end - start) mod 1440, h <= 23 and m <= 59 |
| `Duration.CalculateDurationSameTime` | app.py:46-51 | equal readings give "0h 0m" |
| `Duration.CalculateDurationDayShift` | app.py:41-51 | "09:00" to "17:30" gives "8h 30m" |
| `Duration.CalculateDurationNightShift` | app.py:46-51 | "23:00" to "01:00" wraps midnight and gives "2h 0m" |
| `Duration.CalculateDurationBadHour` | app.py:52-53 | an out-of-range hour gives the sentinel |
| `Attendance.OpenMatch` | app.py:686-688 | the WHERE clause of the open-row queries; a row matching the query with a location (app.py:687) also matches the query without one (app.py:710), so a row open here is never missed by the "open elsewhere" query |
| `Attendance.FirstOpen` | app.py:685-689 | `fetchone()` on the open-row query: the first matching row in table order, or none exactly when no row matches |
| `Attendance.OpenRowUnique` | app.py:708-712 | under the invariant an open matching row is the only one, so `fetchone()` has no choice to make |
| `Attendance.OneOpenPerDayIsStronger` | app.py:685-689 | one open row per employee and day implies one per employee, day and location |
| `Attendance.TimeColumnText` | app.py:694 | `str()` of the TIME column holding the check-in time: eight characters whose first five parse back as the check-in time of day, followed by ":00" seconds |
| `Attendance.StartText` | app.py:693-694 | truncating the TIME column's text to 5 characters gives back the `HH:MM` inserted at check-in |
| `Attendance.CheckoutDuration` | app.py:693-695 | the duration stored at check-out is the elapsed time from the row's start to now, never the sentinel |
| `Attendance.Close` | app.py:697-701 | the updated row is closed |
| `Attendance.CloseKeepsOneOpenPerDay` | app.py:697-701 | closing a row keeps the one-open-row-per-day invariant |
| `Attendance.AppendKeepsOneOpenPerDay` | app.py:708-727 | appending an open row when the employee has none open that day keeps the invariant |
| `Attendance.FirstOpenAfterAppend` | app.py:723-727 | after an append to a table with no match, the new row is the first match if it matches |
| `Attendance.AttendanceBook.CheckIn` | app.py:651-747 | a bad id, an empty location or an unknown employee gives an error and leaves the table unchanged; an open row at this location is closed in place with end time now and the elapsed duration, and nothing else changes; an open row elsewhere gives a warning naming that other location and leaves the table unchanged; otherwise exactly one open row is appended; the invariant is preserved |
| `Attendance.OpenThenConflict` | app.py:708-730 | a check-in at A opens a row; a request at B the same day is then refused with a warning naming A, and no second row is added |
| `Attendance.CloseThenReopen` | app.py:685-730 | with a row open at A, a request at A closes it with the elapsed duration, and the next request at A opens a new, independent row |
| `Credentials.UserTable.constructor` | app.py:64-71 | the table starts empty with the id sequence at 1 |
| `Credentials.UserTable.Signup` | app.py:343-383 | a blank name, email or password, or an already registered email, is refused and the table is unchanged; otherwise exactly one user (next id, hash of the password, stripped name) is added under the stripped email; ids stay unique |
| `Credentials.UserTable.Login` | app.py:387-421 | blank fields give a missing-fields reply; an unknown email and a wrong password give the same `BadCredentials` reply; login succeeds exactly when the digest matches, and returns that user's id and name |
| `Credentials.SignupThenLogin` | app.py:365-370 | logging in with the email and password of a successful signup returns that new user |
| `Credentials.SignupTwice` | app.py:356-362 | a second signup with the same stripped email is refused and the first account is kept |

## Left out

- HTML, CSS and JavaScript pages (`index`, `dashboard`): user interface only.
- Database connection (`get_conn`), the SQL of table creation (`init_db`) beyond the empty `users` table with its id sequence at 1, `health`, the 404/500 handlers and start-up: I/O and framework wiring.
- SHA-256: `hash_password` is the `hash` constant of `Credentials.UserTable`, a deterministic function the model does not interpret.
- `datetime.now()`: the date and time are parameters of `CheckIn`.
- Concurrency: the read-then-write race between simultaneous check-ins is outside a sequential model.
- Message texts and HTTP status codes: replies are the `Outcome`, `SignupResult` and `LoginResult` datatypes.
- The request field names: `check_in` reads `id` while its page sends `employee_id`. The model takes the id after `int()`; `None` stands for any failure of `int()` on the field. A `ValueError` gives the invalid-id reply (app.py:742). The `TypeError` of `int(None)` on an absent field (app.py:654) is not caught there and reaches Flask's 500 handler (app.py:776-778); the model folds it into `Error(InvalidId)`, and on both paths the table is unchanged.
- The generic `except Exception` handlers of `signup`, `login` and `check_in`: they only catch failures of code outside the model, such as the database. The one in `check_in` (app.py:748) is indented by two spaces while its `try` is indented by four, so Python refuses to compile the module (`IndentationError: unindent does not match any outer indentation level`) and app.py as written never loads; the model describes the program with that handler removed.
- Credentials.UserTable.Signup: does not model the VARCHAR(255) limit on `users.email` and `users.name`; a longer stripped email or name makes the INSERT fail with a 500 reply and no user added, where the model returns `SignedUp`.
- Attendance.Record: every row has a start time. The only INSERT always sets one, so a row with a NULL `start_time` (whose check-out duration would be the sentinel) is not representable, and `CheckoutDuration` relies on this.
- Columns the model does not represent: `attendance.id`, which the check-out UPDATE uses to find its row (app.py:700); the model uses the row's position in the sequence instead. Also `created_at`, `users.employee_id` and `employees.employee_id`.
- Clock.ParseHM: accepts only ASCII digits, while `strptime`'s `\d` also matches other Unicode decimal digits.
- Attendance.AttendanceBook.CheckIn: requires nothing of the table and states the invariant as "kept if it held before", because the code does not check it on entry.
- Attendance.FirstOpen: the SQL queries have no `ORDER BY`, so which of several matches `fetchone()` returns is not fixed; the model returns the first in table order. Under the invariant there is at most one match (`OpenRowUnique`).
