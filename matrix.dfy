/** The presence matrix: the ledger rows of one class (or of one student)
    pivoted into a grid whose rows are the distinct (roll number, name)
    pairs, whose columns are the distinct dates seen, and whose cells are
    "P" where a record exists and "A" elsewhere, as `pivot_table` with
    `fill_value="A"` builds it.  The admin view then keeps the rows whose
    roll number is numeric and sorts them by its value. */
module Matrix {
  import opened Tables
  import opened Ordering
  import opened Text

  datatype Mark = P | A

  /** The index of the pivot table. */
  datatype RowKey = RowKey(rollNumber: string, name: string)

  /** One row of the grid; `R` is the type of its roll number (a string
      as stored, or its integer value in the admin view). */
  datatype Row<R> = Row(roll: R, name: string, marks: seq<Mark>)

  datatype Grid<R> = Grid(dates: seq<string>, rows: seq<Row<R>>)

  /** The order `pivot_table` sorts its index in: by roll number, then by name. */
  predicate KeyLt(a: RowKey, b: RowKey)
  {
    StrLt(a.rollNumber, b.rollNumber) || (a.rollNumber == b.rollNumber && StrLt(a.name, b.name))
  }

  lemma KeyLtIsStrictTotalOrder()
    ensures StrictTotalOrder(KeyLt)
  {
    StrLtIsStrictTotalOrder();
    forall a, b | a != b ensures KeyLt(a, b) || KeyLt(b, a) {
      if a.rollNumber == b.rollNumber {
        assert a.name != b.name;
      }
    }
  }

  function DatesOf(records: seq<AttendanceRecord>): (ds: seq<string>)
    ensures forall d :: d in ds <==> exists r :: r in records && r.date == d
  {
    if records == [] then [] else [records[0].date] + DatesOf(records[1..])
  }

  function KeysOf(records: seq<AttendanceRecord>): (ks: seq<RowKey>)
    ensures forall k :: k in ks <==> exists r :: r in records && RowKey(r.rollNumber, r.name) == k
  {
    if records == [] then [] else [RowKey(records[0].rollNumber, records[0].name)] + KeysOf(records[1..])
  }

  /** Some record has this roll number, name and date. */
  predicate Attended(records: seq<AttendanceRecord>, roll: string, name: string, date: string)
  {
    exists r :: r in records && r.rollNumber == roll && r.name == name && r.date == date
  }

  function MarkFor(records: seq<AttendanceRecord>, roll: string, name: string, date: string): Mark
  {
    if Attended(records, roll, name, date) then P else A
  }

  function KeysOfRows(rows: seq<Row<string>>): (ks: seq<RowKey>)
    ensures |ks| == |rows|
    ensures forall i :: 0 <= i < |rows| ==> ks[i] == RowKey(rows[i].roll, rows[i].name)
  {
    seq(|rows|, i requires 0 <= i < |rows| => RowKey(rows[i].roll, rows[i].name))
  }

  /** `pivot_table(index=["roll_number", "name"], columns="date",
      aggfunc="first", fill_value="A")` over records whose status is "P". */
  function Pivot(records: seq<AttendanceRecord>): (g: Grid<string>)
    ensures StrictlySorted(g.dates, StrLt)
    ensures forall d :: d in g.dates <==> exists r :: r in records && r.date == d
    ensures StrictlySorted(KeysOfRows(g.rows), KeyLt)
    ensures forall k :: k in KeysOfRows(g.rows) <==> exists r :: r in records && RowKey(r.rollNumber, r.name) == k
    ensures forall i :: 0 <= i < |g.rows| ==> |g.rows[i].marks| == |g.dates|
    ensures forall i, j :: 0 <= i < |g.rows| && 0 <= j < |g.dates| ==>
              (g.rows[i].marks[j] == P <==> Attended(records, g.rows[i].roll, g.rows[i].name, g.dates[j]))
  {
    StrLtIsStrictTotalOrder();
    KeyLtIsStrictTotalOrder();
    var dates := SortedSet(DatesOf(records), StrLt);
    var keys := SortedSet(KeysOf(records), KeyLt);
    var rows := seq(|keys|, i requires 0 <= i < |keys| =>
                  Row(keys[i].rollNumber, keys[i].name,
                      seq(|dates|, j requires 0 <= j < |dates| => MarkFor(records, keys[i].rollNumber, keys[i].name, dates[j]))));
    assert KeysOfRows(rows) == keys;
    Grid(dates, rows)
  }

  lemma {:induction false} StrictlySortedHasNoDuplicates<T(!new)>(s: seq<T>, lt: (T, T) -> bool)
    requires StrictTotalOrder(lt) && StrictlySorted(s, lt)
    ensures |set x | x in s| == |s|
  {
    if s != [] {
      var tail := s[1..];
      assert StrictlySorted(tail, lt) by {
        forall i, j | 0 <= i < j < |tail| ensures lt(tail[i], tail[j]) {
          assert tail[i] == s[i + 1] && tail[j] == s[j + 1];
        }
      }
      StrictlySortedHasNoDuplicates(tail, lt);
      assert s[0] !in tail by {
        forall j | 0 <= j < |tail| ensures tail[j] != s[0] {
          assert lt(s[0], s[j + 1]);
        }
      }
      assert (set x | x in s) == (set x | x in tail) + {s[0]} by {
        assert s == [s[0]] + tail;
      }
    }
  }

  /** The columns after adding a record on a date the records did not have:
      the old ones and that date. */
  lemma NewDateColumns(records: seq<AttendanceRecord>, x: AttendanceRecord)
    requires forall r :: r in records ==> r.date != x.date
    ensures x.date !in Pivot(records).dates
    ensures forall d :: d in Pivot(records + [x]).dates <==> d in Pivot(records).dates || d == x.date
  {
    var ds, ds' := Pivot(records).dates, Pivot(records + [x]).dates;
    assert x in records + [x];
    forall d ensures d in ds' <==> d in ds || d == x.date {
      if d in ds' {
        var r :| r in records + [x] && r.date == d;
        assert r in records || r == x;
      }
      if d in ds {
        var r :| r in records && r.date == d;
        assert r in records + [x];
      }
    }
  }

  /** In the new date's column only the record's own row is marked "P". */
  lemma NewDateMarks(records: seq<AttendanceRecord>, x: AttendanceRecord, i: nat, j: nat)
    requires forall r :: r in records ==> r.date != x.date
    requires var g := Pivot(records + [x]); i < |g.rows| && j < |g.dates| && g.dates[j] == x.date
    ensures var row := Pivot(records + [x]).rows[i];
            row.marks[j] == P <==> row.roll == x.rollNumber && row.name == x.name
  {
    var g := Pivot(records + [x]);
    var row := g.rows[i];
    assert row.marks[j] == P <==> Attended(records + [x], row.roll, row.name, x.date);
    if Attended(records + [x], row.roll, row.name, x.date) {
      var r :| r in records + [x] && r.rollNumber == row.roll && r.name == row.name && r.date == x.date;
      assert r == x;
    }
    assert x in records + [x];
  }

  /** Two strictly sorted string sequences, the second holding exactly the
      elements of the first and one more, differ in length by one. */
  lemma OneMoreDistinct(ds: seq<string>, ds': seq<string>, x: string)
    requires StrictlySorted(ds, StrLt) && StrictlySorted(ds', StrLt)
    requires x !in ds
    requires forall d :: d in ds' <==> d in ds || d == x
    ensures (set d | d in ds') == (set d | d in ds) + {x}
    ensures |ds'| == |ds| + 1
  {
    StrLtIsStrictTotalOrder();
    StrictlySortedHasNoDuplicates(ds, StrLt);
    StrictlySortedHasNoDuplicates(ds', StrLt);
    assert (set d | d in ds') == (set d | d in ds) + {x};
  }

  /** A record on a date the records did not have adds exactly one column,
      marked "P" in the record's row only. */
  lemma NewDateAddsOneColumn(records: seq<AttendanceRecord>, x: AttendanceRecord)
    requires forall r :: r in records ==> r.date != x.date
    ensures var g, g' := Pivot(records), Pivot(records + [x]);
            && (set d | d in g'.dates) == (set d | d in g.dates) + {x.date}
            && |g'.dates| == |g.dates| + 1
            && forall i, j :: 0 <= i < |g'.rows| && 0 <= j < |g'.dates| && g'.dates[j] == x.date ==>
                 (g'.rows[i].marks[j] == P <==> g'.rows[i].roll == x.rollNumber && g'.rows[i].name == x.name)
  {
    var g, g' := Pivot(records), Pivot(records + [x]);
    NewDateColumns(records, x);
    OneMoreDistinct(g.dates, g'.dates, x.date);
    forall i, j | 0 <= i < |g'.rows| && 0 <= j < |g'.dates| && g'.dates[j] == x.date {
      NewDateMarks(records, x, i, j);
    }
  }

  // ---------- The admin view ----------

  /** A roll number `pd.to_numeric` reads as an integer: decimal digits only. */
  predicate IsNumeric(s: string)
  {
    |s| > 0 && forall k :: 0 <= k < |s| ==> IsDigit(s[k])
  }

  function Pow10(k: nat): (p: nat)
    ensures p >= 1
  {
    if k == 0 then 1 else 10 * Pow10(k - 1)
  }

  /** The integer value of a string of decimal digits; it has at most as
      many digits as the string. */
  function NumValue(s: string): (n: nat)
    requires forall k :: 0 <= k < |s| ==> IsDigit(s[k])
    ensures n < Pow10(|s|)
  {
    if s == [] then 0
    else
      var last := s[|s| - 1];
      assert IsDigit(last);
      var d := last as int - '0' as int;
      var high := NumValue(s[..|s| - 1]);
      assert high + 1 <= Pow10(|s| - 1);
      assert 10 * high + d < 10 * (high + 1);
      10 * high + d
  }

  /** Leading zeros do not change the value: "007" and "7" both read as 7. */
  lemma {:induction false} NumValueLeadingZero(s: string)
    requires forall k :: 0 <= k < |s| ==> IsDigit(s[k])
    ensures NumValue(['0'] + s) == NumValue(s)
  {
    if s != [] {
      var z := ['0'] + s;
      assert z[..|z| - 1] == ['0'] + s[..|s| - 1];
      assert z[|z| - 1] == s[|s| - 1];
      NumValueLeadingZero(s[..|s| - 1]);
    } else {
      assert (['0'] + s)[..0] == [];
    }
  }

  /** A single digit reads as its own value. */
  lemma NumValueDigit(c: char)
    requires IsDigit(c)
    ensures NumValue([c]) == c as int - '0' as int
  {
    assert [c][..0] == [];
  }

  lemma ShiftDigit(va: int, p: int, vf: int, d: int)
    ensures 10 * (va * p + vf) + d == va * (10 * p) + (10 * vf + d)
  {
  }

  /** Positional notation: the digits of `a` are worth `10^|b|` times their
      own value when the digits of `b` follow them. */
  lemma {:induction false} NumValueConcat(a: string, b: string)
    requires forall k :: 0 <= k < |a| ==> IsDigit(a[k])
    requires forall k :: 0 <= k < |b| ==> IsDigit(b[k])
    ensures NumValue(a + b) == NumValue(a) * Pow10(|b|) + NumValue(b)
  {
    if b == [] {
      assert a + b == a;
    } else {
      var s := a + b;
      var front := b[..|b| - 1];
      assert s[..|s| - 1] == a + front;
      assert s[|s| - 1] == b[|b| - 1];
      NumValueConcat(a, front);
      var d := b[|b| - 1] as int - '0' as int;
      var va, vf, p := NumValue(a), NumValue(front), Pow10(|front|);
      assert NumValue(s) == 10 * NumValue(a + front) + d;
      assert NumValue(b) == 10 * vf + d;
      assert Pow10(|b|) == 10 * p;
      ShiftDigit(va, p, vf, d);
    }
  }

  /** The numeric rows, their roll number turned into its integer value:
      `to_numeric(errors="coerce")`, `dropna` and `astype(int)`. */
  function NumericRows(rows: seq<Row<string>>): (r: seq<Row<nat>>)
    ensures |r| <= |rows|
    ensures forall x :: x in r <==> exists y :: y in rows && IsNumeric(y.roll) && x == Row(NumValue(y.roll), y.name, y.marks)
  {
    if rows == [] then []
    else
      (if IsNumeric(rows[0].roll) then [Row(NumValue(rows[0].roll), rows[0].name, rows[0].marks)] else [])
      + NumericRows(rows[1..])
  }

  /** A single row is kept, converted, exactly when its roll number is
      numeric. */
  lemma NumericRowsSingle(y: Row<string>)
    ensures NumericRows([y]) == if IsNumeric(y.roll) then [Row(NumValue(y.roll), y.name, y.marks)] else []
  {
    assert [y][1..] == [];
  }

  /** The conversion works row by row, in order: every input row contributes
      its own copy, so two rows that convert to the same value ("07" and "7"
      under one name) both stay. With `NumericRowsSingle` this fixes the
      result, multiplicities included. */
  lemma {:induction false} NumericRowsConcat(a: seq<Row<string>>, b: seq<Row<string>>)
    ensures NumericRows(a + b) == NumericRows(a) + NumericRows(b)
  {
    if a == [] {
      assert a + b == b;
    } else {
      var y, rest := a[0], a[1..];
      assert (a + b)[0] == y;
      assert (a + b)[1..] == rest + b;
      NumericRowsConcat(rest, b);
      var head := if IsNumeric(y.roll) then [Row(NumValue(y.roll), y.name, y.marks)] else [];
      assert NumericRows(a + b) == head + NumericRows(rest + b);
      assert NumericRows(a) == head + NumericRows(rest);
    }
  }

  /** Two students under one name whose roll numbers are "07" and "7" give
      two identical converted rows; neither is dropped. */
  lemma NumericRowsKeepsBoth(name: string, marks: seq<Mark>)
    ensures NumericRows([Row("07", name, marks), Row("7", name, marks)]) == [Row(7, name, marks), Row(7, name, marks)]
  {
    var y0, y1 := Row("07", name, marks), Row("7", name, marks);
    NumericRowsConcat([y0], [y1]);
    assert [y0] + [y1] == [y0, y1];
    NumericRowsSingle(y0);
    NumericRowsSingle(y1);
    NumValueLeadingZero("7");
    assert ['0'] + "7" == "07";
    NumValueDigit('7');
  }

  predicate SortedByRoll(rows: seq<Row<nat>>)
  {
    forall i, j :: 0 <= i < j < |rows| ==> rows[i].roll <= rows[j].roll
  }

  function InsertByRoll(x: Row<nat>, s: seq<Row<nat>>): (r: seq<Row<nat>>)
    requires SortedByRoll(s)
    ensures SortedByRoll(r)
    ensures multiset(r) == multiset(s) + multiset{x}
    ensures r[0] == x || (s != [] && r[0] == s[0])
  {
    if s == [] || x.roll <= s[0].roll then [x] + s
    else
      var tail := s[1..];
      assert SortedByRoll(tail) by {
        forall i, j | 0 <= i < j < |tail| ensures tail[i].roll <= tail[j].roll {
          assert tail[i] == s[i + 1] && tail[j] == s[j + 1];
        }
      }
      var rest := InsertByRoll(x, tail);
      assert tail != [] ==> s[0].roll <= tail[0].roll by {
        if tail != [] {
          assert tail[0] == s[1];
        }
      }
      HeadBelowSorted(s[0], rest);
      assert s == [s[0]] + tail;
      assert multiset([s[0]] + rest) == multiset{s[0]} + multiset(rest);
      [s[0]] + rest
  }

  /** A row at most the first of sorted rows can go in front of them. */
  lemma HeadBelowSorted(h: Row<nat>, rest: seq<Row<nat>>)
    requires SortedByRoll(rest) && rest != [] && h.roll <= rest[0].roll
    ensures SortedByRoll([h] + rest)
  {
    var r := [h] + rest;
    forall i, j | 0 <= i < j < |r| ensures r[i].roll <= r[j].roll {
      if i == 0 {
        assert r[j] == rest[j - 1];
      } else {
        assert r[i] == rest[i - 1] && r[j] == rest[j - 1];
      }
    }
  }

  /** `sort_values("roll_number")` on the integer roll numbers. */
  function SortByRoll(s: seq<Row<nat>>): (r: seq<Row<nat>>)
    ensures SortedByRoll(r)
    ensures multiset(r) == multiset(s)
  {
    if s == [] then []
    else
      assert s == [s[0]] + s[1..];
      InsertByRoll(s[0], SortByRoll(s[1..]))
  }

  datatype AdminView = NoData | AdminTable(grid: Grid<nat>)

  /** The matrix of `show_matrix_and_push` for the selected class. */
  function AdminMatrix(ledger: seq<AttendanceRecord>, className: string): (v: AdminView)
    ensures v.NoData? <==> Select(ledger, Query(className, None, None)) == []
    ensures v.AdminTable? ==>
              var records := Select(ledger, Query(className, None, None));
              && v.grid.dates == Pivot(records).dates
              && SortedByRoll(v.grid.rows)
              && multiset(v.grid.rows) == multiset(NumericRows(Pivot(records).rows))
  {
    var records := Select(ledger, Query(className, None, None));
    if records == [] then NoData
    else
      var pivot := Pivot(records);
      AdminTable(Grid(pivot.dates, SortByRoll(NumericRows(pivot.rows))))
  }

  /** The ledger holds a record of class `c` for this roll number, name and date. */
  predicate AttendedIn(ledger: seq<AttendanceRecord>, c: string, roll: string, name: string, date: string)
  {
    exists r :: r in ledger && r.className == c && r.rollNumber == roll && r.name == name && r.date == date
  }

  lemma AttendedInClass(ledger: seq<AttendanceRecord>, c: string, roll: string, name: string, date: string)
    ensures Attended(Select(ledger, Query(c, None, None)), roll, name, date) <==> AttendedIn(ledger, c, roll, name, date)
  {
    var records := Select(ledger, Query(c, None, None));
    if AttendedIn(ledger, c, roll, name, date) {
      var r :| r in ledger && r.className == c && r.rollNumber == roll && r.name == name && r.date == date;
      assert r in records;
    }
  }

  /** A pivot row stands for a (roll number, name) pair of the records,
      and has one mark per date. */
  lemma PivotRow(records: seq<AttendanceRecord>, k: nat)
    requires k < |Pivot(records).rows|
    ensures var row := Pivot(records).rows[k];
            && |row.marks| == |Pivot(records).dates|
            && exists r :: r in records && r.rollNumber == row.roll && r.name == row.name
  {
    var row := Pivot(records).rows[k];
    assert KeysOfRows(Pivot(records).rows)[k] == RowKey(row.roll, row.name);
    assert RowKey(row.roll, row.name) in KeysOfRows(Pivot(records).rows);
    var r :| r in records && RowKey(r.rollNumber, r.name) == RowKey(row.roll, row.name);
  }

  /** What an admin row says: it stands for the numeric roll number `s`
      of a record of the class with that name, has one cell per date, and
      its cells are "P" exactly on the dates the class's ledger holds a
      record for that roll number and name. */
  predicate ShowsRecordRow(ledger: seq<AttendanceRecord>, className: string, dates: seq<string>, s: string, row: Row<nat>)
  {
    && IsNumeric(s) && NumValue(s) == row.roll
    && |row.marks| == |dates|
    && (exists r :: r in ledger && r.className == className && r.rollNumber == s && r.name == row.name)
    && forall j :: 0 <= j < |dates| ==> (row.marks[j] == P <==> AttendedIn(ledger, className, s, row.name, dates[j]))
  }

  /** A numeric pivot row of the class, its roll number turned into an
      integer, is what the admin matrix shows for it. */
  lemma NumericPivotRow(ledger: seq<AttendanceRecord>, className: string, k: nat)
    requires k < |Pivot(Select(ledger, Query(className, None, None))).rows|
    requires IsNumeric(Pivot(Select(ledger, Query(className, None, None))).rows[k].roll)
    ensures var pivot := Pivot(Select(ledger, Query(className, None, None)));
            var y := pivot.rows[k];
            ShowsRecordRow(ledger, className, pivot.dates, y.roll, Row(NumValue(y.roll), y.name, y.marks))
  {
    var records := Select(ledger, Query(className, None, None));
    var pivot := Pivot(records);
    var y := pivot.rows[k];
    PivotRow(records, k);
    var r0 :| r0 in records && r0.rollNumber == y.roll && r0.name == y.name;
    assert r0 in ledger && r0.className == className;
    forall j | 0 <= j < |pivot.dates| ensures y.marks[j] == P <==> AttendedIn(ledger, className, y.roll, y.name, pivot.dates[j]) {
      AttendedInClass(ledger, className, y.roll, y.name, pivot.dates[j]);
    }
  }

  /** Every admin row is the row of a numeric roll number of the class. */
  lemma AdminMatrixRows(ledger: seq<AttendanceRecord>, className: string, i: nat)
    requires AdminMatrix(ledger, className).AdminTable?
    requires i < |AdminMatrix(ledger, className).grid.rows|
    ensures var g := AdminMatrix(ledger, className).grid;
            exists s :: ShowsRecordRow(ledger, className, g.dates, s, g.rows[i])
  {
    var pivot := Pivot(Select(ledger, Query(className, None, None)));
    var g := AdminMatrix(ledger, className).grid;
    var row := g.rows[i];
    var numeric := NumericRows(pivot.rows);
    assert row in multiset(g.rows);
    assert row in numeric;
    var y :| y in pivot.rows && IsNumeric(y.roll) && row == Row(NumValue(y.roll), y.name, y.marks);
    var k :| 0 <= k < |pivot.rows| && pivot.rows[k] == y;
    NumericPivotRow(ledger, className, k);
  }

  /** A numeric row survives the conversion and any reordering of it. */
  lemma NumericRowKept(prows: seq<Row<string>>, rows: seq<Row<nat>>, y: Row<string>)
    requires multiset(rows) == multiset(NumericRows(prows))
    requires y in prows && IsNumeric(y.roll)
    ensures exists i :: 0 <= i < |rows| && rows[i] == Row(NumValue(y.roll), y.name, y.marks)
  {
    var x := Row(NumValue(y.roll), y.name, y.marks);
    assert x in NumericRows(prows);
    assert x in multiset(rows);
    var i :| 0 <= i < |rows| && rows[i] == x;
  }

  /** Every record of the class with a numeric roll number has its row. */
  lemma AdminMatrixComplete(ledger: seq<AttendanceRecord>, className: string, r: AttendanceRecord)
    requires r in ledger && r.className == className && IsNumeric(r.rollNumber)
    ensures AdminMatrix(ledger, className).AdminTable?
    ensures var rows := AdminMatrix(ledger, className).grid.rows;
            exists i :: 0 <= i < |rows| && rows[i].roll == NumValue(r.rollNumber) && rows[i].name == r.name
  {
    var records := Select(ledger, Query(className, None, None));
    assert r in records;
    var pivot := Pivot(records);
    var keys := KeysOfRows(pivot.rows);
    assert RowKey(r.rollNumber, r.name) in keys;
    var k :| 0 <= k < |keys| && keys[k] == RowKey(r.rollNumber, r.name);
    NumericRowKept(pivot.rows, AdminMatrix(ledger, className).grid.rows, pivot.rows[k]);
  }


}
