/** The three tables of the attendance store, held in memory: the classroom
    registry `classroom_settings`, the roll-to-name lock `roll_map` and the
    append-only `attendance` ledger; the equality-filtered reads and deletes
    the panels issue against the ledger; and the invariants the panels keep. */
module Tables {

  datatype Option<T> = None | Some(value: T)

  /** One `classroom_settings` row; the table is keyed by its `class_name`. */
  datatype ClassroomConfig = ClassroomConfig(code: string, dailyLimit: int, isOpen: bool)

  /** The key of a `roll_map` row: (class_name, roll_number). */
  datatype RollKey = RollKey(className: string, rollNumber: string)

  /** One `attendance` row. Dates are `YYYY-MM-DD` strings. */
  datatype AttendanceRecord = AttendanceRecord(className: string, rollNumber: string, name: string, date: string)

  function KeyOf(r: AttendanceRecord): RollKey
  {
    RollKey(r.className, r.rollNumber)
  }

  /** A chain of `.eq(...)` filters on the ledger: always on `class_name`,
      optionally on `roll_number` and on `date`. */
  datatype Query = Query(className: string, rollNumber: Option<string>, date: Option<string>)

  predicate Matches(r: AttendanceRecord, q: Query)
  {
    && r.className == q.className
    && (q.rollNumber.Some? ==> r.rollNumber == q.rollNumber.value)
    && (q.date.Some? ==> r.date == q.date.value)
  }

  /** `select("*")` with the filters of `q`: the matching rows, in ledger order. */
  function Select(ledger: seq<AttendanceRecord>, q: Query): (rows: seq<AttendanceRecord>)
    ensures |rows| <= |ledger|
    ensures forall r :: r in rows <==> r in ledger && Matches(r, q)
  {
    if ledger == [] then []
    else (if Matches(ledger[0], q) then [ledger[0]] else []) + Select(ledger[1..], q)
  }

  /** `delete()` with the filters of `q`: the rows that remain, in ledger order. */
  function DeleteWhere(ledger: seq<AttendanceRecord>, q: Query): (rest: seq<AttendanceRecord>)
    ensures |rest| <= |ledger|
    ensures forall r :: r in rest <==> r in ledger && !Matches(r, q)
  {
    if ledger == [] then []
    else (if Matches(ledger[0], q) then [] else [ledger[0]]) + DeleteWhere(ledger[1..], q)
  }

  /** The `count="exact"` of the rows of class `c` on day `d`. */
  function CountOn(ledger: seq<AttendanceRecord>, c: string, d: string): (n: nat)
    ensures n <= |ledger|
    ensures n == 0 <==> forall r :: r in ledger ==> !(r.className == c && r.date == d)
  {
    var rows := Select(ledger, Query(c, None, Some(d)));
    assert rows != [] ==> rows[0] in rows;
    |rows|
  }

  /** Appending one row adds it to the result of every query it matches and
      leaves every other query's result as it was. */
  lemma {:induction false} SelectAppend(ledger: seq<AttendanceRecord>, x: AttendanceRecord, q: Query)
    ensures Select(ledger + [x], q) == Select(ledger, q) + (if Matches(x, q) then [x] else [])
  {
    if ledger == [] {
      assert [] + [x] == [x];
    } else {
      assert (ledger + [x])[1..] == ledger[1..] + [x];
      SelectAppend(ledger[1..], x, q);
    }
  }

  /** A delete works row by row, in ledger order: an appended row remains
      after it exactly when the filter does not match it. */
  lemma {:induction false} DeleteWhereAppend(ledger: seq<AttendanceRecord>, x: AttendanceRecord, q: Query)
    ensures DeleteWhere(ledger + [x], q) == DeleteWhere(ledger, q) + (if Matches(x, q) then [] else [x])
  {
    if ledger == [] {
      assert [] + [x] == [x];
      assert [x][1..] == [];
    } else {
      assert (ledger + [x])[1..] == ledger[1..] + [x];
      DeleteWhereAppend(ledger[1..], x, q);
    }
  }

  /** Appending a row adds one to its class's count for its date. */
  lemma CountAfterAdmit(ledger: seq<AttendanceRecord>, x: AttendanceRecord)
    ensures CountOn(ledger + [x], x.className, x.date) == CountOn(ledger, x.className, x.date) + 1
  {
    SelectAppend(ledger, x, Query(x.className, None, Some(x.date)));
  }

  /** A query no row matches selects nothing. */
  lemma SelectNothing(ledger: seq<AttendanceRecord>, q: Query)
    requires forall r :: r in ledger ==> !Matches(r, q)
    ensures Select(ledger, q) == []
  {
  }

  /** Deleting the rows of one class leaves every query on another class
      with exactly the rows it had. */
  lemma {:induction false} DeleteKeepsOtherClasses(ledger: seq<AttendanceRecord>, c: string, q: Query)
    requires q.className != c
    ensures Select(DeleteWhere(ledger, Query(c, None, None)), q) == Select(ledger, q)
  {
    if ledger != [] {
      DeleteKeepsOtherClasses(ledger[1..], c, q);
      var head := if Matches(ledger[0], Query(c, None, None)) then [] else [ledger[0]];
      SelectConcat(head, DeleteWhere(ledger[1..], Query(c, None, None)), q);
    }
  }

  lemma {:induction false} SelectConcat(a: seq<AttendanceRecord>, b: seq<AttendanceRecord>, q: Query)
    ensures Select(a + b, q) == Select(a, q) + Select(b, q)
  {
    if a == [] {
      assert a + b == b;
    } else {
      assert (a + b)[1..] == a[1..] + b;
      SelectConcat(a[1..], b, q);
    }
  }

  /** Deleting the rows a query matches and selecting them split the ledger. */
  lemma {:induction false} DeleteAndSelectPartition(ledger: seq<AttendanceRecord>, q: Query)
    ensures |Select(ledger, q)| + |DeleteWhere(ledger, q)| == |ledger|
  {
    if ledger != [] {
      DeleteAndSelectPartition(ledger[1..], q);
    }
  }

  // ---------- Invariants of the store ----------

  /** At most one row per (class, roll, date): the "already marked today" guard. */
  ghost predicate OnePerDay(ledger: seq<AttendanceRecord>)
  {
    forall i, j :: 0 <= i < j < |ledger| && KeyOf(ledger[i]) == KeyOf(ledger[j]) ==> ledger[i].date != ledger[j].date
  }

  /** Every attendance row carries the name its roll number is locked to. */
  ghost predicate LocksAgree(locks: map<RollKey, string>, ledger: seq<AttendanceRecord>)
  {
    forall r :: r in ledger ==> KeyOf(r) in locks && locks[KeyOf(r)] == r.name
  }

  /** A lock exists only for a roll number with an accepted submission:
      a rejected attempt leaves no lock behind. */
  ghost predicate LocksBacked(locks: map<RollKey, string>, ledger: seq<AttendanceRecord>)
  {
    forall k :: k in locks ==> exists r :: r in ledger && KeyOf(r) == k
  }

  /** No lock and no attendance row outlives its class. */
  ghost predicate NoOrphans(settings: map<string, ClassroomConfig>, locks: map<RollKey, string>, ledger: seq<AttendanceRecord>)
  {
    && (forall k :: k in locks ==> k.className in settings)
    && (forall r :: r in ledger ==> r.className in settings)
  }

  ghost predicate LimitsPositive(settings: map<string, ClassroomConfig>)
  {
    forall c :: c in settings ==> settings[c].dailyLimit >= 1
  }

  /** At most one class accepts submissions at a time. */
  ghost predicate AtMostOneOpen(settings: map<string, ClassroomConfig>)
  {
    forall a, b :: a in settings && b in settings && settings[a].isOpen && settings[b].isOpen ==> a == b
  }

  /** Every invariant of the three tables. */
  ghost predicate Consistent(settings: map<string, ClassroomConfig>, locks: map<RollKey, string>, ledger: seq<AttendanceRecord>)
  {
    && OnePerDay(ledger)
    && LocksAgree(locks, ledger)
    && LocksBacked(locks, ledger)
    && NoOrphans(settings, locks, ledger)
    && LimitsPositive(settings)
  }

  /** The classes with `is_open` set. */
  function OpenClasses(settings: map<string, ClassroomConfig>): set<string>
  {
    set c | c in settings && settings[c].isOpen
  }

  /** The `roll_map` rows left after deleting those of class `c`. */
  function LocksWithout(locks: map<RollKey, string>, c: string): map<RollKey, string>
  {
    map k | k in locks && k.className != c :: locks[k]
  }

  /** Deleting every row of class `c` from the three tables keeps every
      table invariant. */
  lemma CascadeKeepsInvariants(settings: map<string, ClassroomConfig>, locks: map<RollKey, string>,
                               ledger: seq<AttendanceRecord>, c: string)
    requires Consistent(settings, locks, ledger)
    ensures Consistent(settings - {c}, LocksWithout(locks, c), DeleteWhere(ledger, Query(c, None, None)))
    ensures forall k :: k in LocksWithout(locks, c) ==> k.className != c
    ensures forall r :: r in DeleteWhere(ledger, Query(c, None, None)) ==> r.className != c
  {
    var ledger', locks' := DeleteWhere(ledger, Query(c, None, None)), LocksWithout(locks, c);
    DeleteKeepsOnePerDay(ledger, Query(c, None, None));
    forall k | k in locks' ensures exists r :: r in ledger' && KeyOf(r) == k {
      var r :| r in ledger && KeyOf(r) == k;
      assert r in ledger';
    }
  }

  /** Appending a row for a (class, roll, date) the ledger has no row for
      keeps one row per (class, roll, date). */
  lemma AppendKeepsOnePerDay(ledger: seq<AttendanceRecord>, x: AttendanceRecord)
    requires OnePerDay(ledger)
    requires Select(ledger, Query(x.className, Some(x.rollNumber), Some(x.date))) == []
    ensures OnePerDay(ledger + [x])
  {
    forall i | 0 <= i < |ledger| && KeyOf(ledger[i]) == KeyOf(x)
      ensures ledger[i].date != x.date
    {
      assert ledger[i] in ledger;
    }
  }

  /** An accepted submission (lock the roll to the name unless it is
      locked already, then append the row) keeps every table invariant. */
  lemma AdmitKeepsInvariants(settings: map<string, ClassroomConfig>, locks: map<RollKey, string>,
                             ledger: seq<AttendanceRecord>, x: AttendanceRecord)
    requires Consistent(settings, locks, ledger)
    requires x.className in settings
    requires Select(ledger, Query(x.className, Some(x.rollNumber), Some(x.date))) == []
    requires KeyOf(x) in locks ==> locks[KeyOf(x)] == x.name
    ensures Consistent(settings, locks[KeyOf(x) := x.name], ledger + [x])
  {
    AppendKeepsOnePerDay(ledger, x);
    var locks', ledger' := locks[KeyOf(x) := x.name], ledger + [x];
    forall k | k in locks' ensures exists r :: r in ledger' && KeyOf(r) == k {
      if k == KeyOf(x) {
        assert x in ledger';
      } else {
        var r :| r in ledger && KeyOf(r) == k;
        assert r in ledger';
      }
    }
  }

  /** Deleting rows keeps one row per (class, roll, date). */
  lemma {:induction false} DeleteKeepsOnePerDay(ledger: seq<AttendanceRecord>, q: Query)
    requires OnePerDay(ledger)
    ensures OnePerDay(DeleteWhere(ledger, q))
  {
    if ledger != [] {
      var tail := ledger[1..];
      assert OnePerDay(tail) by {
        forall i, j | 0 <= i < j < |tail| && KeyOf(tail[i]) == KeyOf(tail[j])
          ensures tail[i].date != tail[j].date
        {
          assert tail[i] == ledger[i + 1] && tail[j] == ledger[j + 1];
        }
      }
      DeleteKeepsOnePerDay(tail, q);
      var rest := DeleteWhere(tail, q);
      if !Matches(ledger[0], q) {
        var r := [ledger[0]] + rest;
        forall i, j | 0 <= i < j < |r| && KeyOf(r[i]) == KeyOf(r[j])
          ensures r[i].date != r[j].date
        {
          if i == 0 {
            assert r[j] in rest;
            var j' :| 0 <= j' < |tail| && tail[j'] == r[j];
            assert ledger[j' + 1] == r[j];
          } else {
            assert r[i] == rest[i - 1] && r[j] == rest[j - 1];
          }
        }
      }
    }
  }

  /** The store: the three tables as fields the panels read and update. */
  class Database {
    var settings: map<string, ClassroomConfig>
    var rollMap: map<RollKey, string>
    var attendance: seq<AttendanceRecord>

    ghost predicate Valid()
      reads this
    {
      Consistent(settings, rollMap, attendance)
    }

    /** A store whose three tables are empty. */
    constructor ()
      ensures Valid() && AtMostOneOpen(settings)
      ensures settings == map[] && rollMap == map[] && attendance == []
    {
      settings, rollMap, attendance := map[], map[], [];
    }
  }
}
