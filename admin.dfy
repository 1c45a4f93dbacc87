/** The admin panel: the login gate with its session flag, class creation
    and deletion from the sidebar, and the open/close and settings controls
    of the selected class. */
module AdminPanel {
  import opened Tables
  import opened Text

  /** The session flag `admin_logged_in`. */
  class AdminSession {
    var loggedIn: bool

    /** A new session starts logged out. */
    constructor ()
      ensures !loggedIn
    {
      loggedIn := false;
    }

    /** One submission of the login form against the configured pair.
        A logged-in session skips the form; otherwise the flag is set only
        when both the user name and the password are equal to the
        configured ones. `proceed` says whether the rest of the panel is
        shown (the source stops the page otherwise). */
    method Login(username: string, password: string, adminUser: string, adminPass: string)
      returns (proceed: bool)
      modifies this
      ensures loggedIn == (old(loggedIn) || (username == adminUser && password == adminPass))
      ensures proceed == loggedIn
    {
      if !loggedIn {
        if username == adminUser && password == adminPass {
          loggedIn := true;
        }
      }
      proceed := loggedIn;
    }

    method Logout()
      modifies this
      ensures !loggedIn
    {
      loggedIn := false;
    }
  }

  /** The row a new class starts with. */
  const DefaultCode: string := "1234"
  const DefaultLimit: int := 10

  datatype CreateOutcome = BlankName | AlreadyExists | Created

  /** "Add Class": a blank name does nothing, an existing name only warns,
      any other name is inserted as typed (unstripped), closed, with the
      default code and limit. */
  method CreateClass(db: Database, classInput: string) returns (outcome: CreateOutcome)
    requires db.Valid()
    modifies db
    ensures db.Valid()
    ensures old(AtMostOneOpen(db.settings)) ==> AtMostOneOpen(db.settings)
    ensures db.rollMap == old(db.rollMap) && db.attendance == old(db.attendance)
    ensures outcome == BlankName <==> IsBlank(classInput)
    ensures outcome == AlreadyExists <==> !IsBlank(classInput) && classInput in old(db.settings)
    ensures outcome == Created ==>
              && classInput !in old(db.settings)
              && db.settings == old(db.settings)[classInput := ClassroomConfig(DefaultCode, DefaultLimit, false)]
    ensures outcome != Created ==> db.settings == old(db.settings)
  {
    if IsBlank(classInput) {
      return BlankName;
    }
    if classInput in db.settings {
      return AlreadyExists;
    }
    db.settings := db.settings[classInput := ClassroomConfig(DefaultCode, DefaultLimit, false)];
    return Created;
  }

  /** The text the delete confirmation asks for. */
  const ConfirmWord: string := "DELETE"

  /** "Delete This Class": for a non-blank target confirmed with "DELETE",
      deletes the class's `attendance` rows, then its `roll_map` rows, then
      its `classroom_settings` row. */
  method DeleteClass(db: Database, target: string, confirmation: string) returns (deleted: bool)
    requires db.Valid()
    modifies db
    ensures db.Valid()
    ensures old(AtMostOneOpen(db.settings)) ==> AtMostOneOpen(db.settings)
    ensures deleted == (!IsBlank(target) && confirmation == ConfirmWord)
    ensures deleted ==>
              && db.attendance == DeleteWhere(old(db.attendance), Query(target, None, None))
              && db.rollMap == LocksWithout(old(db.rollMap), target)
              && db.settings == old(db.settings) - {target}
              && |db.attendance| == |old(db.attendance)| - |Select(old(db.attendance), Query(target, None, None))|
    ensures !deleted ==>
              db.attendance == old(db.attendance) && db.rollMap == old(db.rollMap) && db.settings == old(db.settings)
    ensures forall q: Query :: q.className != target ==> Select(db.attendance, q) == Select(old(db.attendance), q)
  {
    deleted := !IsBlank(target) && confirmation == ConfirmWord;
    if deleted {
      CascadeKeepsInvariants(db.settings, db.rollMap, db.attendance, target);
      DeleteAndSelectPartition(db.attendance, Query(target, None, None));
      forall q: Query | q.className != target
        ensures Select(DeleteWhere(db.attendance, Query(target, None, None)), q) == Select(db.attendance, q)
      {
        DeleteKeepsOtherClasses(db.attendance, target, q);
      }
      db.attendance := DeleteWhere(db.attendance, Query(target, None, None));
      db.rollMap := LocksWithout(db.rollMap, target);
      db.settings := db.settings - {target};
    }
  }

  /** "Open Attendance" on the selected class: refused, with the list of
      the other open classes, when any other class is open. */
  method OpenClass(db: Database, selected: string) returns (otherOpen: set<string>)
    requires db.Valid()
    requires selected in db.settings
    modifies db
    ensures db.Valid()
    ensures db.rollMap == old(db.rollMap) && db.attendance == old(db.attendance)
    ensures otherOpen == OpenClasses(old(db.settings)) - {selected}
    ensures otherOpen == {} ==>
              db.settings == old(db.settings)[selected := old(db.settings)[selected].(isOpen := true)]
    ensures otherOpen != {} ==> db.settings == old(db.settings)
    ensures otherOpen == {} ==> OpenClasses(db.settings) == {selected}
    ensures old(AtMostOneOpen(db.settings)) ==> AtMostOneOpen(db.settings)
  {
    otherOpen := set c | c in db.settings && db.settings[c].isOpen && c != selected;
    if otherOpen == {} {
      forall c | c in db.settings && db.settings[c].isOpen ensures c == selected {
        assert c == selected || c in otherOpen;
      }
      db.settings := db.settings[selected := db.settings[selected].(isOpen := true)];
    }
  }

  /** "Close Attendance" on the selected class, unconditionally. */
  method CloseClass(db: Database, selected: string)
    requires db.Valid()
    requires selected in db.settings
    modifies db
    ensures db.Valid()
    ensures db.rollMap == old(db.rollMap) && db.attendance == old(db.attendance)
    ensures db.settings == old(db.settings)[selected := old(db.settings)[selected].(isOpen := false)]
    ensures selected !in OpenClasses(db.settings)
    ensures old(AtMostOneOpen(db.settings)) ==> AtMostOneOpen(db.settings)
  {
    db.settings := db.settings[selected := db.settings[selected].(isOpen := false)];
  }

  /** "Save Settings": overwrites the code and the daily limit of the
      selected class; the number input never yields a limit below 1. */
  method UpdateSettings(db: Database, selected: string, newCode: string, newLimit: int)
    requires db.Valid()
    requires selected in db.settings
    requires newLimit >= 1
    modifies db
    ensures db.Valid()
    ensures db.rollMap == old(db.rollMap) && db.attendance == old(db.attendance)
    ensures db.settings == old(db.settings)[selected := old(db.settings)[selected].(code := newCode, dailyLimit := newLimit)]
    ensures db.settings[selected].isOpen == old(db.settings)[selected].isOpen
    ensures old(AtMostOneOpen(db.settings)) ==> AtMostOneOpen(db.settings)
  {
    db.settings := db.settings[selected := db.settings[selected].(code := newCode, dailyLimit := newLimit)];
  }

  /** The repository path the matrix of a class is pushed to on a day. */
  function PushFilename(className: string, today: string): (path: string)
    ensures |path| == |PushPrefix| + |className| + 1 + |Without(today, '-')| + 4
    ensures path[..|PushPrefix|] == PushPrefix
    ensures path[|PushPrefix|..|PushPrefix| + |className|] == className
    ensures path[|PushPrefix| + |className|] == '_'
    ensures path[|PushPrefix| + |className| + 1..|path| - 4] == Without(today, '-')
    ensures '-' !in path[|PushPrefix| + |className| + 1..|path| - 4]
    ensures path[|path| - 4..] == ".csv"
  {
    var stamp := Without(today, '-');
    var path := PushPrefix + className + "_" + stamp + ".csv";
    assert path[|PushPrefix| + |className| + 1..|path| - 4] == stamp;
    assert path[|PushPrefix| + |className|] == '_';
    path
  }

  /** The directory and stem every pushed matrix file starts with. */
  const PushPrefix: string := "records/attendance_matrix_"

  /** For a `YYYY-MM-DD` day the file is `..._<class>_YYYYMMDD.csv`. */
  lemma PushFilenameOfIsoDate(className: string, today: string)
    requires IsIsoDate(today)
    ensures PushFilename(className, today)
            == "records/attendance_matrix_" + className + "_" + today[..4] + today[5..7] + today[8..] + ".csv"
  {
    IsoDateWithoutDashes(today);
  }
}
