# Classroom attendance: a Dafny model of the bookkeeping core

The system is a two-portal attendance app for classrooms. An admin creates classes, opens one class at a time for attendance, and sets each class's attendance code and daily limit. Students pick an open class and submit a roll number, a name and the code. The first accepted submission locks the (class, roll number) pair to a name. At most one row per student per day is accepted, and at most `daily_limit` rows per class per day. Both portals show the records as a presence matrix: one row per (roll number, name), one column per date, and "P" or "A" in each cell.

The model keeps the three tables `classroom_settings`, `roll_map` and `attendance` as the fields of one `Tables.Database` object:
- a map keyed by class name;
- a map keyed by (class, roll number);
- an append-only sequence.

The panels' operations are methods that update that object:
- student submission;
- admin class creation and deletion;
- opening, closing and updating a class.

Every one of them keeps the store's invariants (`Tables.Database.Valid`):
- one row per (class, roll, date);
- every row carries its roll number's locked name;
- every lock is backed by a row;
- no lock and no row outlives its class;
- every daily limit is at least 1.

Opening a class also preserves "at most one class open". The equality-filtered reads and deletes are functions over the ledger (`Tables.Select`, `Tables.DeleteWhere`). The matrices are functions too: the pandas `pivot_table`, the numeric roll filter and the sort. They are proved against their meaning in terms of the ledger. Python's `str.strip()` and the dash removal of the date are modelled in `Text`; the export file name is `AdminPanel.PushFilename`.

Modules:
- `Ordering` (ordering.dfy): strict total orders and sorted, duplicate-free sequences.
- `Text` (text.dfy): strip, blank test, character removal, ISO dates.
- `Tables` (tables.dfy): the rows, the queries, the invariants and the `Database` class.
- `StudentPanel` (student.dfy): the submission path.
- `AdminPanel` (admin.dfy): the login flag, the sidebar and the class controls, and the export file name.
- `Matrix` (matrix.dfy): the pivot and the admin matrix.
- `StudentView` (student_view.dfy): the student's own lookup.
- `Scenarios` (scenario.dfy): a walk through one class day, built from the contracts above.

What the code does, where a reader of its messages could expect otherwise:
- **A locked roll number on a later day.** The error message at Attendence/student.py:98 announces a rejection for a roll number locked to a different name. That branch is dead: once a roll number is locked, line 47 submits the locked name itself, and no name field is shown. Such a submission is accepted and recorded under the locked name. `StudentPanel.Submit` ensures it never ends in `LockedToOtherName`, and `Scenarios.MalloryNextDay` shows the case.
- **Blank input.** The code does not reject a blank roll number or a blank name at submission. Both are stored as the empty string.
- **No lookup while every class is closed.** The portal draws the marking tab before the "View My Attendance" tab, and the marking tab calls `st.stop()` when no class is open (Attendence/student.py:26-28). That ends the whole script run, so a student cannot look up past attendance while every class is closed. `StudentView.ViewAttendance` returns `PageStopped` exactly then.
- **Raw class names.** Class creation and deletion test the stripped name for blankness, but they store and delete under the raw name as typed.

## Model

| member | source | states |
|---|---|---|
| Tables.Select | Attendence/student.py:62-69 | an `.eq` chain selects exactly the ledger rows matching every filter, in order, and never more rows than the ledger has |
| Tables.DeleteWhere | Attendence/admin.py:83 | a filtered delete keeps exactly the rows that do not match |
| Tables.DeleteWhereAppend | Attendence/admin.py:83 | a delete keeps the remaining rows in ledger order: an appended row remains exactly when the filter does not match it, after the rows that remained before |
| Tables.SelectAppend | Attendence/student.py:102-107 | appending a row adds it to exactly the queries it matches and changes no other query's result |
| Tables.CountOn | Attendence/student.py:75-83 | the exact count of a class's rows on a day is at most the ledger's size, and is zero iff no row has that class and date |
| Tables.CountAfterAdmit | Attendence/student.py:75-83 | appending a row adds exactly one to the count of its class on its date |
| Tables.SelectConcat | Attendence/admin.py:83 | a query over two ledgers one after the other returns the first ledger's rows, then the second's |
| Tables.DeleteAndSelectPartition | Attendence/admin.py:83 | the deleted rows and the remaining rows together are the whole ledger |
| Tables.DeleteKeepsOtherClasses | Attendence/admin.py:83-85 | deleting a class leaves every query on any other class with exactly the rows it had |
| Tables.AppendKeepsOnePerDay | Attendence/student.py:61-72 | after the "already marked" guard passes, appending keeps one row per (class, roll, date) |
| Tables.DeleteKeepsOnePerDay | Attendence/admin.py:83 | deleting rows keeps one row per (class, roll, date) |
| Tables.AdmitKeepsInvariants | Attendence/student.py:89-107 | locking a new roll number, then appending the row, keeps every table invariant |
| Tables.CascadeKeepsInvariants | Attendence/admin.py:83-85 | the three-table cascade delete keeps every table invariant; no lock or row of the class is left |
| Tables.Database.constructor | Attendence/student.py:15-17 | the empty store satisfies every invariant and has no open class |
| Text.Strip | Attendence/student.py:39 | the result is empty iff the input is all whitespace; otherwise it is the input with its leading and trailing whitespace removed, and has no whitespace at either end |
| Text.StripUnpadded | Attendence/student.py:49 | a string with no whitespace at either end is left unchanged |
| Text.Without | Attendence/admin.py:153 | the result has no occurrence of the removed character and keeps every other character |
| Text.WithoutConcat | Attendence/admin.py:153 | removing a character commutes with concatenation |
| Text.WithoutAbsent | Attendence/admin.py:153 | removing a character that does not occur changes nothing |
| Text.WithoutAfterPrefix | Attendence/admin.py:153 | removing a separator after a prefix free of it keeps the prefix whole |
| Text.IsoDateWithoutDashes | Attendence/admin.py:32-34 | a `YYYY-MM-DD` date without its dashes is the 8 characters `YYYYMMDD` |
| AdminPanel.PushFilename | Attendence/admin.py:153 | the path is `records/attendance_matrix_`, then the class name, then `_`, then exactly the given date with its dashes removed (so no dash is left in that segment), then `.csv`; its length is the sum of those parts |
| AdminPanel.PushFilenameOfIsoDate | Attendence/admin.py:153 | the pushed file of a class on a day is `records/attendance_matrix_<class>_YYYYMMDD.csv` |
| Ordering.InsertUnique | Attendence/admin.py:136 | inserting into a strictly sorted sequence keeps it strictly sorted and adds exactly that element |
| Ordering.SortedSet | Attendence/admin.py:136 | the distinct elements of a sequence, in strictly ascending order |
| Ordering.StrLtIrreflexive | Attendence/admin.py:136 | no string is below itself in string order |
| Ordering.StrLtTransitive | Attendence/admin.py:136 | string order is transitive |
| Ordering.StrLtTotal | Attendence/admin.py:136 | of two different strings one is below the other |
| Ordering.StrLtIsStrictTotalOrder | Attendence/admin.py:136 | string order is a strict total order |
| Matrix.KeyLtIsStrictTotalOrder | Attendence/admin.py:136 | the (roll number, name) index order is a strict total order |
| Matrix.DatesOf | Attendence/admin.py:136 | the dates listed are exactly the records' dates |
| Matrix.KeysOf | Attendence/admin.py:136 | the index pairs listed are exactly the records' (roll number, name) pairs |
| Matrix.Pivot | Attendence/admin.py:134-136 | the columns are the distinct dates in ascending order; the rows are the distinct (roll number, name) pairs in ascending order; every row has one cell per date; a cell is "P" iff a record has that roll number, name and date, and "A" otherwise |
| Matrix.StrictlySortedHasNoDuplicates | Attendence/admin.py:136 | a strictly sorted sequence has as many distinct elements as entries |
| Matrix.NewDateColumns | Attendence/admin.py:136 | a record on a new date adds exactly that date to the columns |
| Matrix.OneMoreDistinct | Attendence/admin.py:136 | two strictly sorted date lists, the second with exactly one more element, differ in length by one |
| Matrix.NewDateMarks | Attendence/admin.py:135-136 | in the new date's column, only the new record's row has "P" |
| Matrix.NewDateAddsOneColumn | Attendence/admin.py:134-136 | a record on a new date adds exactly one column, marked "P" only in its own row |
| Matrix.NumericRows | Attendence/admin.py:137-139 | keeps exactly the rows whose roll number is all digits, with the roll number replaced by its integer value, and no more rows than it was given |
| Matrix.NumericRowsSingle | Attendence/admin.py:137-139 | one row gives one converted row if its roll number is numeric, and none otherwise |
| Matrix.NumericRowsConcat | Attendence/admin.py:137-139 | the filter works row by row, in order: the result for `a + b` is the result for `a` followed by the result for `b`, so every numeric row contributes exactly one copy |
| Matrix.NumericRowsKeepsBoth | Attendence/admin.py:137-139 | rows with roll numbers "07" and "7" under one name give two identical converted rows, not one |
| Matrix.NumValue | Attendence/admin.py:137-139 | the integer value of a digit string has at most as many digits as the string |
| Matrix.NumValueDigit | Attendence/admin.py:137-139 | a one-digit string reads as that digit's value |
| Matrix.NumValueConcat | Attendence/admin.py:137-139 | positional notation: the value of `a + b` is the value of `a` times 10^len(b) plus the value of `b` |
| Matrix.NumValueLeadingZero | Attendence/admin.py:137-139 | leading zeros do not change the value, so roll numbers "07" and "7" get the same integer |
| Matrix.InsertByRoll | Attendence/admin.py:141 | inserting into rows sorted by roll number keeps them sorted and adds exactly that row |
| Matrix.HeadBelowSorted | Attendence/admin.py:141 | a row whose roll number is at most the first of sorted rows can go in front and keep them sorted |
| Matrix.SortByRoll | Attendence/admin.py:141 | the rows sorted by roll number are a permutation of the input |
| Matrix.AdminMatrix | Attendence/admin.py:132-141 | no matrix iff the class has no rows; otherwise the pivot's date columns, and the numeric pivot rows, permuted and sorted by integer roll number |
| Matrix.AttendedInClass | Attendence/admin.py:132 | a record is among the class's selected rows iff the ledger holds it for that class |
| Matrix.PivotRow | Attendence/admin.py:136 | every pivot row stands for a record's (roll number, name) and has one cell per date |
| Matrix.NumericPivotRow | Attendence/admin.py:136-139 | a numeric pivot row of the class, its roll number turned into an integer, has one cell per date and is "P" exactly on the dates the ledger holds that student's record |
| Matrix.NumericRowKept | Attendence/admin.py:137-141 | a numeric pivot row survives the conversion, the filter and the sort |
| Matrix.AdminMatrixRows | Attendence/admin.py:132-141 | each admin row is for a digit-only roll number and a name of that class, and its cells are "P" exactly on the dates the ledger holds that student's record |
| Matrix.AdminMatrixComplete | Attendence/admin.py:137-141 | each record of the class with a digit-only roll number has its row in the admin matrix |
| StudentView.ViewAttendance | student_main.py:36-77 | nothing is looked up iff no class is open (the marking tab drawn first stops the script); otherwise "enter your roll number" iff the stripped roll is blank; "no attendance" iff no row has that class and roll; otherwise a matrix showing exactly that student's rows (see next row) |
| StudentView.PivotOfStudent | student_main.py:53-77 | the student matrix's columns are exactly that student's dates, ascending; every row carries the roll number; the rows are exactly the names submitted under it; a cell is "P" iff the ledger holds that record |
| StudentView.StudentDates | student_main.py:68-74 | the columns are exactly the dates of the student's records |
| StudentView.StudentRows | student_main.py:68-77 | every row carries the roll number searched for, and no row's roll number is below an earlier one's |
| StudentView.StudentNames | student_main.py:68-74 | the rows are exactly the names submitted under that roll number |
| StudentView.StudentMarks | student_main.py:66-74 | a cell is "P" exactly when the ledger holds that record |
| StudentView.LookupHasOneRow | student_main.py:53-77 | when every row carries its roll number's locked name, the student matrix has at most one row, with the locked name, so the sort by roll number has nothing to reorder |
| StudentPanel.Submit | Attendence/student.py:22-107 | no open class stops the panel; otherwise, in order: a wrong code, a row already present for today, and the day's count at the limit each reject with no write. Otherwise it locks the roll number if new and appends (class, stripped roll, locked or typed name, today), after which the day's count is at most the limit. It never ends in the lock-mismatch rejection, and every invariant is kept |
| StudentPanel.FormName | Attendence/student.py:42-49 | for a locked roll number the submitted name is the locked one, so re-locking changes nothing; otherwise it is exactly the typed name stripped: it has no surrounding whitespace, and it is empty iff the typed name is blank |
| StudentPanel.Record | Attendence/student.py:89-107 | the lock is inserted only for a new roll number, then the row is appended; the day's count grows by exactly one; the invariants are kept |
| StudentPanel.RelockSameName | Attendence/student.py:96-99 | locking a roll number again to the name it holds leaves the locks unchanged |
| AdminPanel.AdminSession.constructor | Attendence/admin.py:38-39 | a session starts logged out |
| AdminPanel.AdminSession.Login | Attendence/admin.py:37-51 | the session is logged in afterwards iff it was before or both credentials match; the panel continues only when logged in |
| AdminPanel.AdminSession.Logout | Attendence/admin.py:73-75 | the session is logged out |
| AdminPanel.CreateClass | Attendence/admin.py:58-71 | a blank name does nothing; an existing name only warns; otherwise the raw name is added, closed, with code "1234" and limit 10; the other tables are unchanged |
| AdminPanel.DeleteClass | Attendence/admin.py:79-87 | confirmed with "DELETE" for a non-blank target, it deletes the class's rows (the ledger shrinks by exactly their number), locks and settings entry; every query on another class is unaffected; the invariants are kept |
| AdminPanel.OpenClass | Attendence/admin.py:103-114 | refused, with the list of the other open classes, when any exists; otherwise the selected class becomes the only open one |
| AdminPanel.CloseClass | Attendence/admin.py:116-118 | the selected class is closed and nothing else changes |
| AdminPanel.UpdateSettings | Attendence/admin.py:120-126 | the selected class's code and limit are replaced and its open flag is kept |
| Scenarios.Setup | Attendence/admin.py:58-71 | creating CS101, setting its limit to 2 and opening it gives a store with exactly that class open |
| Scenarios.AliceTwice | Attendence/student.py:61-72 | a second submission by the same roll number on the same day writes nothing |
| Scenarios.BobSecond | Attendence/student.py:89-107 | a second student on the same day is recorded and locked |
| Scenarios.CaraOverLimit | Attendence/student.py:74-87 | with the limit of 2 reached, a third student is rejected and nothing is written |
| Scenarios.MalloryNextDay | Attendence/student.py:44-47 | a locked roll number submitted the next day under another name is recorded under its locked name |
| Scenarios.LookupWhileClosed | Attendence/student.py:26-28 | with the only class closed, a lookup for a roll number that has a row ends in `PageStopped`, not in a table |

## Left out

- The Supabase client and the network: the tables are in-memory values, and each call is one atomic step.
- Concurrent sessions and Streamlit reruns: two students submitting at once can exceed the daily limit in the source, because the count and the insert are separate requests. The model runs one submission at a time.
- The wall clock and the India Standard Time zone: `today` is a parameter of every operation that reads it.
- The GitHub push (get, update or create the file), the CSV download, the cell styling and table rendering; only the file name is modelled.
- `admin_main.py` and the analytics section: they are not part of this model.
- Matrix.NumericRows: `pd.to_numeric` also accepts signs, decimal points and exponents, and `astype(int)` truncates. The model keeps only digit-only roll numbers. The source's values pass through int64 or float64: when any roll in the column is not numeric, the column is parsed as float64, so a digit-only roll above 2^53 (9007199254740992) may lose precision; a roll beyond the int64 range does not convert faithfully either, while `NumValue` is unbounded. A roll such as "inf" survives `to_numeric` and `dropna`, and `astype(int)` (Attendence/admin.py:139) then raises, so the admin matrix page fails. The model drops that row instead.
- Matrix.SortByRoll: the source's default sort is not stable. The model states only that the result is sorted and is a permutation, not the order of rows with equal integer roll numbers. On the student view this does not matter: StudentView.LookupHasOneRow shows the lookup has at most one row.
- The `order("date", desc=True)` of the admin read: the pivot re-sorts its columns, so the read order does not matter.
- Matrix.Pivot: the model omits the `reset_index` and `columns.name` renames, which change only column labels.
- Text.Strip: strips the ASCII whitespace of `str.isspace()` (space, tab, line feed, vertical tab, form feed, carriage return, U+001C to U+001F) only; Python also strips the non-ASCII whitespace characters such as U+0085, U+00A0, U+2028 and U+3000.
- StudentPanel.Submit: the `count or 0` fallback is not modelled, since a count is always a number here. The selected class must be an open class, as the selector only offers those.
- AdminPanel.OpenClass, CloseClass and UpdateSettings require the selected class to exist. The source stops the page before the controls when there are no classes, and the selector only offers existing ones.
- AdminPanel.DeleteClass: the model assumes the click on "Delete This Class" and the typed "DELETE" arrive in one run. The page as written may never deliver that: the confirmation box exists only in the run the click starts, where it has only just appeared, and on every later rerun `st.button` is False, so the deletions at Attendence/admin.py:83-85 are not reached from it.
- AdminPanel.AdminSession.Login: the credentials are parameters; reading them from the environment is not modelled.
