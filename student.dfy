/** The submission path of the student panel (`show_student_panel`): the
    open-class selector, the roll-to-name lock lookup that pre-fills the
    name, the four ordered checks and the two inserts. */
module StudentPanel {
  import opened Tables
  import opened Text

  /** What one press of "Submit Attendance" ends in. Every outcome but
      `Submitted` is a rejection that writes nothing. */
  datatype Outcome =
    | NoOpenClass        // no class is open: the panel stops before the form
    | IncorrectCode
    | AlreadyMarked      // a row exists for (class, roll, today)
    | LimitReached       // the class has daily_limit rows for today
    | LockedToOtherName  // the lock holds another name (never reached, see Submit)
    | Submitted

  /** The name the form submits: the locked name when the roll number is
      locked in this class (the name field is then not shown), otherwise
      the stripped name typed in. */
  function FormName(locks: map<RollKey, string>, key: RollKey, nameInput: string): (name: string)
    ensures key in locks ==> name == locks[key] && locks[key := name] == locks
    ensures key !in locks && name != [] ==> !IsSpace(name[0]) && !IsSpace(name[|name| - 1])
    ensures key !in locks ==> (name == [] <==> IsBlank(nameInput))
    ensures key !in locks ==> name == Strip(nameInput)
  {
    if key in locks then locks[key] else Strip(nameInput)
  }

  /** One submission attempt. `selected` is the class chosen in the
      selector, which offers only open classes; the roll number and the
      name are stripped, the code is compared exactly as typed. `today`
      stands for the India Standard Time date of the submission. */
  method Submit(db: Database, selected: string, rollInput: string, nameInput: string, codeInput: string, today: string)
    returns (outcome: Outcome)
    requires db.Valid()
    requires OpenClasses(db.settings) != {} ==> selected in OpenClasses(db.settings)
    modifies db
    ensures db.Valid()
    ensures db.settings == old(db.settings)
    ensures outcome != LockedToOtherName
    ensures outcome == NoOpenClass <==> OpenClasses(old(db.settings)) == {}
    ensures outcome != Submitted ==> db.rollMap == old(db.rollMap) && db.attendance == old(db.attendance)
    ensures outcome != NoOpenClass ==>
      var cfg := old(db.settings)[selected];
      var roll := Strip(rollInput);
      var key := RollKey(selected, roll);
      var name := FormName(old(db.rollMap), key, nameInput);
      var codeOk := codeInput == cfg.code;
      var marked := Select(old(db.attendance), Query(selected, Some(roll), Some(today))) != [];
      var count := CountOn(old(db.attendance), selected, today);
      && (outcome == IncorrectCode <==> !codeOk)
      && (outcome == AlreadyMarked <==> codeOk && marked)
      && (outcome == LimitReached <==> codeOk && !marked && count >= cfg.dailyLimit)
      && (outcome == Submitted <==> codeOk && !marked && count < cfg.dailyLimit)
      && (outcome == Submitted ==>
            && db.attendance == old(db.attendance) + [AttendanceRecord(selected, roll, name, today)]
            && db.rollMap == old(db.rollMap)[key := name]
            && (key in old(db.rollMap) ==> db.rollMap == old(db.rollMap))
            && CountOn(db.attendance, selected, today) == count + 1 <= cfg.dailyLimit)
  {
    if OpenClasses(db.settings) == {} {
      return NoOpenClass;
    }
    var cfg := db.settings[selected];
    var roll := Strip(rollInput);
    var key := RollKey(selected, roll);
    var locked := key in db.rollMap;
    var name := FormName(db.rollMap, key, nameInput);

    if codeInput != cfg.code {
      return IncorrectCode;
    }
    if Select(db.attendance, Query(selected, Some(roll), Some(today))) != [] {
      return AlreadyMarked;
    }
    var count := CountOn(db.attendance, selected, today);
    if count >= cfg.dailyLimit {
      return LimitReached;
    }

    if locked {
      // The source rejects here when the locked name differs from the
      // submitted one; the submitted name is the locked name itself.
      assert db.rollMap[key] == name;
      RelockSameName(db.rollMap, key, name);
    }
    Record(db, AttendanceRecord(selected, roll, name, today));
    return Submitted;
  }

  /** The two inserts of an accepted submission: the `roll_map` row when
      the roll number is not locked yet, then the `attendance` row. */
  method Record(db: Database, x: AttendanceRecord)
    requires db.Valid()
    requires x.className in db.settings
    requires Select(db.attendance, Query(x.className, Some(x.rollNumber), Some(x.date))) == []
    requires KeyOf(x) in db.rollMap ==> db.rollMap[KeyOf(x)] == x.name
    modifies db
    ensures db.Valid()
    ensures db.settings == old(db.settings)
    ensures db.rollMap == old(db.rollMap)[KeyOf(x) := x.name]
    ensures db.attendance == old(db.attendance) + [x]
    ensures CountOn(db.attendance, x.className, x.date) == CountOn(old(db.attendance), x.className, x.date) + 1
  {
    var locked := KeyOf(x) in db.rollMap;
    var locks, ledger := db.rollMap[KeyOf(x) := x.name], db.attendance + [x];
    AdmitKeepsInvariants(db.settings, db.rollMap, db.attendance, x);
    CountAfterAdmit(db.attendance, x);
    if locked {
      RelockSameName(db.rollMap, KeyOf(x), x.name);
    }
    assert Consistent(db.settings, locks, ledger);
    if !locked {
      db.rollMap := locks;
    }
    db.attendance := ledger;
    assert db.rollMap == locks;
  }

  /** Locking a roll number again to the name it is locked to changes nothing. */
  lemma RelockSameName(locks: map<RollKey, string>, key: RollKey, name: string)
    requires key in locks && locks[key] == name
    ensures locks[key := name] == locks
  {
  }
}
