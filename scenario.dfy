/** A client of the panels: one day of a class CS101 with a limit of 2,
    then a second day, replayed on an empty store one step at a time and
    checked from the contracts alone. */
module Scenarios {
  import opened Tables
  import opened Text
  import opened StudentPanel
  import opened AdminPanel
  import opened StudentView

  const Monday: string := "2025-01-06"
  const Tuesday: string := "2025-01-07"
  const CS101: ClassroomConfig := ClassroomConfig("1234", 2, true)

  /** The admin creates CS101, sets its limit to 2 and opens it. */
  method Setup() returns (db: Database)
    ensures fresh(db) && db.Valid()
    ensures db.settings == map["CS101" := CS101]
    ensures db.rollMap == map[] && db.attendance == []
  {
    db := new Database();
    StripUnpadded("CS101");
    var created := CreateClass(db, "CS101");
    assert created == Created;
    UpdateSettings(db, "CS101", "1234", 2);
    var others := OpenClass(db, "CS101");
    assert others == {};
  }

  /** Alice submits roll 1, then submits again the same day. */
  method AliceTwice(db: Database)
    requires db.Valid()
    requires db.settings == map["CS101" := CS101]
    requires db.rollMap == map[] && db.attendance == []
    modifies db
    ensures db.Valid() && db.settings == old(db.settings)
    ensures db.rollMap == map[RollKey("CS101", "1") := "Alice"]
    ensures db.attendance == [AttendanceRecord("CS101", "1", "Alice", Monday)]
  {
    StripUnpadded("1");
    StripUnpadded("Alice");
    assert OpenClasses(db.settings) == {"CS101"};
    var first := Submit(db, "CS101", "1", "Alice", "1234", Monday);
    assert first == Submitted;
    var alice := AttendanceRecord("CS101", "1", "Alice", Monday);
    assert alice in Select(db.attendance, Query("CS101", Some("1"), Some(Monday)));
    var again := Submit(db, "CS101", "1", "Alice", "1234", Monday);
    assert again == AlreadyMarked;
  }

  /** Bob takes the second seat of the day. */
  method BobSecond(db: Database)
    requires db.Valid()
    requires db.settings == map["CS101" := CS101]
    requires db.rollMap == map[RollKey("CS101", "1") := "Alice"]
    requires db.attendance == [AttendanceRecord("CS101", "1", "Alice", Monday)]
    modifies db
    ensures db.Valid() && db.settings == old(db.settings)
    ensures db.rollMap == map[RollKey("CS101", "1") := "Alice", RollKey("CS101", "2") := "Bob"]
    ensures db.attendance == [AttendanceRecord("CS101", "1", "Alice", Monday), AttendanceRecord("CS101", "2", "Bob", Monday)]
    ensures CountOn(db.attendance, "CS101", Monday) == 2
  {
    StripUnpadded("2");
    StripUnpadded("Bob");
    assert OpenClasses(db.settings) == {"CS101"};
    SelectNothing(db.attendance, Query("CS101", Some("2"), Some(Monday)));
    var alice := AttendanceRecord("CS101", "1", "Alice", Monday);
    assert [] + [alice] == db.attendance;
    CountAfterAdmit([], alice);
    assert CountOn(db.attendance, "CS101", Monday) == 1;
    var bobRow := AttendanceRecord("CS101", "2", "Bob", Monday);
    assert db.attendance + [bobRow] == [alice, bobRow];
    var bob := Submit(db, "CS101", "2", "Bob", "1234", Monday);
    assert bob == Submitted;
  }

  /** Cara finds the limit of 2 reached: nothing is written. */
  method CaraOverLimit(db: Database)
    requires db.Valid()
    requires db.settings == map["CS101" := CS101]
    requires db.attendance == [AttendanceRecord("CS101", "1", "Alice", Monday), AttendanceRecord("CS101", "2", "Bob", Monday)]
    requires CountOn(db.attendance, "CS101", Monday) == 2
    modifies db
    ensures db.Valid() && db.settings == old(db.settings)
    ensures db.rollMap == old(db.rollMap) && db.attendance == old(db.attendance)
  {
    StripUnpadded("3");
    assert OpenClasses(db.settings) == {"CS101"};
    SelectNothing(db.attendance, Query("CS101", Some("3"), Some(Monday)));
    var cara := Submit(db, "CS101", "3", "Cara", "1234", Monday);
    assert cara == LimitReached;
  }

  /** Mallory submits roll 1 the next day: the row is recorded under the
      name roll 1 is locked to. */
  method MalloryNextDay(db: Database)
    requires db.Valid()
    requires db.settings == map["CS101" := CS101]
    requires db.rollMap == map[RollKey("CS101", "1") := "Alice", RollKey("CS101", "2") := "Bob"]
    requires db.attendance == [AttendanceRecord("CS101", "1", "Alice", Monday), AttendanceRecord("CS101", "2", "Bob", Monday)]
    modifies db
    ensures db.attendance == old(db.attendance) + [AttendanceRecord("CS101", "1", "Alice", Tuesday)]
    ensures db.rollMap == old(db.rollMap)
  {
    StripUnpadded("1");
    assert OpenClasses(db.settings) == {"CS101"};
    SelectNothing(db.attendance, Query("CS101", Some("1"), Some(Tuesday)));
    SelectNothing(db.attendance, Query("CS101", None, Some(Tuesday)));
    var mallory := Submit(db, "CS101", "1", "Mallory", "1234", Tuesday);
    assert mallory == Submitted;
  }

  method CS101Day()
  {
    var db := Setup();
    AliceTwice(db);
    BobSecond(db);
    CaraOverLimit(db);
    MalloryNextDay(db);
  }

  /** With CS101 closed, a student who was marked present on Monday cannot
      look the day up: the page stops before the lookup tab. */
  lemma LookupWhileClosed()
    ensures var closed := map["CS101" := CS101.(isOpen := false)];
            var ledger := [AttendanceRecord("CS101", "1", "Alice", Monday)];
            ViewAttendance(closed, ledger, "CS101", "1") == PageStopped
  {
    var closed := map["CS101" := CS101.(isOpen := false)];
    assert forall c :: c in closed ==> c == "CS101";
  }
}
