/** The "View My Attendance" tab of the student portal: a read-only lookup
    of one student's rows in one class, shown as a presence matrix. */
module StudentView {
  import opened Tables
  import opened Text
  import opened Ordering
  import opened Matrix

  datatype Lookup =
    | PageStopped           // no class is open: the marking tab stops the script first
    | EnterRollNumber       // the roll number is blank: a warning, no lookup
    | NoAttendance          // the lookup found no row
    | StudentTable(grid: Grid<string>)

  /** Some row of the grid is for this name. */
  predicate ShowsName(rows: seq<Row<string>>, n: string)
  {
    exists i :: 0 <= i < |rows| && rows[i].name == n
  }

  /** The rows of the ledger for this class and roll number. */
  function StudentRecords(ledger: seq<AttendanceRecord>, className: string, roll: string): seq<AttendanceRecord>
  {
    Select(ledger, Query(className, Some(roll), None))
  }

  /** The grid shows this student's rows of the class: one column per
      distinct date, in ascending order; every row carries the roll number
      searched for and one mark per date, the rows are in order of roll
      number (then name) with one row per name the student submitted
      under; and a cell is "P" exactly when the ledger holds the record. */
  ghost predicate ShowsStudent(g: Grid<string>, ledger: seq<AttendanceRecord>, className: string, roll: string)
  {
    && StrictlySorted(g.dates, StrLt)
    && (forall d :: d in g.dates <==>
          exists r :: r in ledger && r.className == className && r.rollNumber == roll && r.date == d)
    && (forall i :: 0 <= i < |g.rows| ==> g.rows[i].roll == roll && |g.rows[i].marks| == |g.dates|)
    && (forall i, j :: 0 <= i < j < |g.rows| ==> !StrLt(g.rows[j].roll, g.rows[i].roll))
    && StrictlySorted(KeysOfRows(g.rows), KeyLt)
    && (forall n :: ShowsName(g.rows, n) <==>
          exists r :: r in ledger && r.className == className && r.rollNumber == roll && r.name == n)
    && (forall i, j :: 0 <= i < |g.rows| && 0 <= j < |g.dates| ==>
          (g.rows[i].marks[j] == P <==> AttendedIn(ledger, className, roll, g.rows[i].name, g.dates[j])))
  }

  /** One press of "Show My Attendance". The portal draws the marking tab
      first, and that tab calls `st.stop()` when no class is open, so the
      lookup is reached only while some class is open. In a consistent store
      every row of the roll number carries its locked name, so the lookup
      has at most one row (`LookupHasOneRow`) and `sort_values("roll_number")`
      has nothing to reorder. */
  function ViewAttendance(settings: map<string, ClassroomConfig>, ledger: seq<AttendanceRecord>,
                          className: string, rollInput: string): (v: Lookup)
    ensures v == PageStopped <==> OpenClasses(settings) == {}
    ensures v == EnterRollNumber <==> OpenClasses(settings) != {} && IsBlank(rollInput)
    ensures v == NoAttendance <==>
              OpenClasses(settings) != {} && !IsBlank(rollInput) && StudentRecords(ledger, className, Strip(rollInput)) == []
    ensures v.StudentTable? ==> ShowsStudent(v.grid, ledger, className, Strip(rollInput))
  {
    if OpenClasses(settings) == {} then PageStopped
    else
      var roll := Strip(rollInput);
      if roll == [] then EnterRollNumber
      else
        var records := StudentRecords(ledger, className, roll);
        if records == [] then NoAttendance
        else
          PivotOfStudent(ledger, className, roll);
          StudentTable(Pivot(records))
  }

  /** The pivot of one student's rows, described in terms of the ledger. */
  lemma PivotOfStudent(ledger: seq<AttendanceRecord>, className: string, roll: string)
    ensures ShowsStudent(Pivot(StudentRecords(ledger, className, roll)), ledger, className, roll)
  {
    StudentDates(ledger, className, roll);
    StudentRows(ledger, className, roll);
    StudentNames(ledger, className, roll);
    StudentMarks(ledger, className, roll);
  }

  /** The columns are exactly the dates of the student's records. */
  lemma StudentDates(ledger: seq<AttendanceRecord>, className: string, roll: string)
    ensures var g := Pivot(StudentRecords(ledger, className, roll));
            forall d :: d in g.dates <==> exists r :: r in ledger && r.className == className && r.rollNumber == roll && r.date == d
  {
    var records := StudentRecords(ledger, className, roll);
    var g := Pivot(records);
    forall d ensures d in g.dates <==> exists r :: r in ledger && r.className == className && r.rollNumber == roll && r.date == d {
      if d !in g.dates {
        forall r | r in ledger && r.className == className && r.rollNumber == roll ensures r.date != d {
          assert r in records;
        }
      }
    }
  }

  /** Every row carries the roll number searched for, so the rows are in
      order of roll number whatever their order. */
  lemma StudentRows(ledger: seq<AttendanceRecord>, className: string, roll: string)
    ensures var g := Pivot(StudentRecords(ledger, className, roll));
            && (forall i :: 0 <= i < |g.rows| ==> g.rows[i].roll == roll)
            && (forall i, j :: 0 <= i < j < |g.rows| ==> !StrLt(g.rows[j].roll, g.rows[i].roll))
  {
    var g := Pivot(StudentRecords(ledger, className, roll));
    var keys := KeysOfRows(g.rows);
    forall i | 0 <= i < |g.rows| ensures g.rows[i].roll == roll {
      assert keys[i] in keys;
    }
    StrLtIsStrictTotalOrder();
  }

  /** The rows are exactly the names the student submitted under. */
  lemma StudentNames(ledger: seq<AttendanceRecord>, className: string, roll: string)
    ensures var g := Pivot(StudentRecords(ledger, className, roll));
            forall n :: ShowsName(g.rows, n) <==>
              exists r :: r in ledger && r.className == className && r.rollNumber == roll && r.name == n
  {
    var records := StudentRecords(ledger, className, roll);
    var g := Pivot(records);
    var keys := KeysOfRows(g.rows);
    forall n ensures ShowsName(g.rows, n) <==>
                     exists r :: r in ledger && r.className == className && r.rollNumber == roll && r.name == n {
      if exists r :: r in ledger && r.className == className && r.rollNumber == roll && r.name == n {
        var r :| r in ledger && r.className == className && r.rollNumber == roll && r.name == n;
        assert r in records;
        assert RowKey(roll, n) in keys;
        var i :| 0 <= i < |keys| && keys[i] == RowKey(roll, n);
        assert g.rows[i].name == n;
      }
      if ShowsName(g.rows, n) {
        var i :| 0 <= i < |g.rows| && g.rows[i].name == n;
        assert keys[i] in keys;
      }
    }
  }

  /** A cell is "P" exactly when the ledger holds the student's record. */
  lemma StudentMarks(ledger: seq<AttendanceRecord>, className: string, roll: string)
    ensures var g := Pivot(StudentRecords(ledger, className, roll));
            forall i, j :: 0 <= i < |g.rows| && 0 <= j < |g.dates| ==>
              (g.rows[i].marks[j] == P <==> AttendedIn(ledger, className, roll, g.rows[i].name, g.dates[j]))
  {
    var records := StudentRecords(ledger, className, roll);
    var g := Pivot(records);
    StudentRows(ledger, className, roll);
    forall i, j | 0 <= i < |g.rows| && 0 <= j < |g.dates|
      ensures g.rows[i].marks[j] == P <==> AttendedIn(ledger, className, roll, g.rows[i].name, g.dates[j])
    {
      var row := g.rows[i];
      if AttendedIn(ledger, className, roll, row.name, g.dates[j]) {
        var r :| r in ledger && r.className == className && r.rollNumber == roll && r.name == row.name && r.date == g.dates[j];
        assert r in records;
      }
    }
  }

  /** In a store whose rows carry their locked names, the student matrix
      has at most one row: the roll number and its locked name. */
  lemma LookupHasOneRow(locks: map<RollKey, string>, ledger: seq<AttendanceRecord>, className: string, roll: string)
    requires LocksAgree(locks, ledger)
    ensures var rows := Pivot(StudentRecords(ledger, className, roll)).rows;
            && |rows| <= 1
            && forall i :: 0 <= i < |rows| ==> RollKey(className, roll) in locks && rows[i].name == locks[RollKey(className, roll)]
  {
    var records := StudentRecords(ledger, className, roll);
    var rows := Pivot(records).rows;
    var keys := KeysOfRows(rows);
    forall i | 0 <= i < |rows|
      ensures RollKey(className, roll) in locks && keys[i] == RowKey(roll, locks[RollKey(className, roll)])
    {
      assert keys[i] in keys;
      var r :| r in records && RowKey(r.rollNumber, r.name) == keys[i];
      assert r in ledger && KeyOf(r) == RollKey(className, roll);
    }
    if rows == [] {
      return;
    }
    var only := RowKey(roll, locks[RollKey(className, roll)]);
    assert keys[0] in keys;
    assert (set k | k in keys) == {only};
    KeyLtIsStrictTotalOrder();
    StrictlySortedHasNoDuplicates(keys, KeyLt);
  }
}
