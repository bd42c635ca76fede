/** Graduation status (src/services/graduation/graduation.controller.ts and
    graduation.service.ts): the role and status gate of the manual update,
    the "MM/YYYY" due-date rule, and the scheduled job that marks due active
    students graduated. The current date is a parameter. */
module GraduationController {
  import opened Common
  import opened AuthValidator

  datatype GraduationStatus = Active | Graduated | Deferred | Inactive

  /** The graduation-status enumeration, by its stored names. */
  function StatusNamed(name: string): (r: Option<GraduationStatus>)
    ensures r.Some? <==> name in ["active", "graduated", "deferred", "inactive"]
  {
    if name == "active" then Some(Active)
    else if name == "graduated" then Some(Graduated)
    else if name == "deferred" then Some(Deferred)
    else if name == "inactive" then Some(Inactive)
    else None
  }

  /** The roles that may set a graduation status by hand: the administrator
      and the five school deans, not the dean of students. */
  const ManualUpdateRoles: seq<string> := [
    "admin", "Dean_of_Science", "Dean_of_Education", "Dean_of_Business",
    "Dean_of_Humanities_and_Developmental_Studies", "Dean_of_TVET"]

  datatype ManualDecision =
    | Forbidden       // 403 "Forbidden: Cannot update graduation status"
    | InvalidStatus   // 400 "Invalid graduation status"
    | Apply(status: GraduationStatus)

  /** The gate of `updateGraduationStatus`: the caller's role first, then
      the requested status (absent when the body holds no string). */
  function ManualUpdateDecision(role: Option<string>, requested: Option<string>): (d: ManualDecision)
    ensures d == Forbidden <==> role.None? || role.value !in ManualUpdateRoles
    ensures d == InvalidStatus <==> role.Some? && role.value in ManualUpdateRoles && (requested.None? || StatusNamed(requested.value).None?)
    ensures d.Apply? ==> requested.Some? && StatusNamed(requested.value) == Some(d.status)
  {
    if role.None? || role.value == "" || role.value !in ManualUpdateRoles then Forbidden
    else if requested.None? || StatusNamed(requested.value).None? then InvalidStatus
    else Apply(StatusNamed(requested.value).value)
  }

  /** The dean of students is refused whatever status is asked for. */
  lemma DeanOfStudentsForbidden(requested: Option<string>)
    ensures ManualUpdateDecision(Some("Dean_of_Students"), requested) == Forbidden
  {
    assert "Dean_of_Students" !in ManualUpdateRoles;
  }

  /** The position of the first '/', if any. */
  function SlashIndex(s: string): (r: Option<nat>)
    ensures r.None? <==> '/' !in s
    ensures r.Some? ==> r.value < |s| && s[r.value] == '/' && '/' !in s[..r.value]
  {
    if s == [] then None
    else if s[0] == '/' then Some(0)
    else
      var rest := SlashIndex(s[1..]);
      assert s == [s[0]] + s[1..];
      if rest.None? then None
      else
        assert s[..rest.value + 1] == [s[0]] + s[1..][..rest.value];
        Some(rest.value + 1)
  }

  /** The first field of `s.split("/")`. */
  function FirstField(s: string): string {
    var k := SlashIndex(s);
    if k.None? then s else s[..k.value]
  }

  /** The first two fields of `s.split("/")`: the month text and, when there
      is a slash, the year text. */
  function SplitMonthYear(s: string): (r: (string, Option<string>)) {
    var k := SlashIndex(s);
    if k.None? then (s, None) else (s[..k.value], Some(FirstField(s[k.value + 1..])))
  }

  /** `Number(text)` on the texts this model covers: "" is 0, decimal digits
      are their value, anything else is NaN (None). */
  function ToNumber(s: string): (r: Option<nat>)
    ensures s == "" ==> r == Some(0)
    ensures s != "" && AllDigits(s) ==> r == Some(DigitsValue(s))
    ensures !AllDigits(s) ==> r.None?
  {
    if s == "" then Some(0) else if AllDigits(s) then Some(DigitsValue(s)) else None
  }

  /** The month, counted from year 0, that `new Date(year, month - 1, 1)`
      falls in: a year of 0 to 99 means 1900 plus that year, and a month
      outside 1..12 rolls into a neighbouring year. None when either part
      is NaN, which makes an invalid date. */
  function DueMonthIndex(expected_graduation: string): (r: Option<int>)
    ensures r.Some? ==> SplitMonthYear(expected_graduation).1.Some?
  {
    var (month, year) := SplitMonthYear(expected_graduation);
    if year.None? then None
    else
      var m := ToNumber(month);
      var y := ToNumber(year.value);
      if m.None? || y.None? then None
      else
        var fullYear := if y.value <= 99 then 1900 + y.value else y.value;
        Some(fullYear * 12 + m.value - 1)
  }

  /** The local calendar date of the run, reduced to what the rule looks at;
      `month` is 1..12. */
  datatype Today = Today(year: int, month: int)

  /** `today >= graduationDate`: the run falls in the due month or later. An
      invalid date is never reached. */
  predicate IsDue(today: Today, expected_graduation: string) {
    var due := DueMonthIndex(expected_graduation);
    due.Some? && today.year * 12 + today.month - 1 >= due.value
  }

  /** Every value the profile schema accepts splits into a month 1..12 and a
      four-digit year, so it always makes a valid date. */
  lemma AcceptedGraduationParses(s: string)
    requires GraduationPattern(s)
    ensures SplitMonthYear(s) == (s[..2], Some(s[3..]))
    ensures ToNumber(s[..2]).Some? && 1 <= ToNumber(s[..2]).value <= 12
    ensures ToNumber(s[3..]).Some? && ToNumber(s[3..]).value <= 9999
    ensures DueMonthIndex(s).Some?
  {
    assert s[..2] == [s[0], s[1]] && s[..2][..1] == [s[0]];
    assert SlashIndex(s) == Some(2) by {
      assert s == [s[0], s[1]] + s[2..];
      assert s[1..] == [s[1]] + s[2..];
    }
    assert '/' !in s[3..];
    var mm := s[..2];
    assert AllDigits(mm);
    assert mm[..|mm| - 1] == [s[0]];
    assert DigitsValue([s[0]]) == s[0] as int - '0' as int by {
      assert [s[0]][..0] == [];
    }
    assert DigitsValue(mm) == 10 * (s[0] as int - '0' as int) + (s[1] as int - '0' as int);
    DigitsBound(s[3..]);
  }

  lemma {:induction false} DigitsBound(s: string)
    requires AllDigits(s)
    ensures DigitsValue(s) < Pow10(|s|)
  {
    if s != [] {
      DigitsBound(s[..|s| - 1]);
    }
  }

  function Pow10(n: nat): nat {
    if n == 0 then 1 else 10 * Pow10(n - 1)
  }

  /** For an accepted value whose year is 100 or later, the rule is the
      lexicographic comparison of (year, month) pairs. */
  lemma DueLexicographic(today: Today, s: string)
    requires 1 <= today.month <= 12
    requires GraduationPattern(s) && DigitsValue(s[3..]) >= 100
    ensures var m := DigitsValue(s[..2]);
      var y := DigitsValue(s[3..]);
      IsDue(today, s) <==> today.year > y || (today.year == y && today.month >= m)
  {
    AcceptedGraduationParses(s);
  }

  /** Years 0 to 99 are read as 1900 to 1999: "01/0025" falls due in January
      1925, not in year 25. */
  lemma TwoDigitYearQuirk()
    ensures IsDue(Today(1925, 1), "01/0025")
    ensures !IsDue(Today(1924, 12), "01/0025")
  {
    QuirkDueMonth();
  }

  /** "01/0025" is read as January 1925. */
  lemma QuirkDueMonth()
    ensures DueMonthIndex("01/0025") == Some(1925 * 12)
  {
    QuirkSplit();
    QuirkMonth();
    QuirkYear();
  }

  /** `Number("01")` is 1. */
  lemma QuirkMonth()
    ensures ToNumber("01") == Some(1)
  {
    assert AllDigits("01");
    assert "01"[..1] == "0" && "0"[..0] == "";
    assert DigitsValue("0") == 0;
  }

  /** `Number("0025")` is 25. */
  lemma QuirkYear()
    ensures ToNumber("0025") == Some(25)
  {
    assert AllDigits("0025");
    assert "0025"[..3] == "002" && "002"[..2] == "00" && "00"[..1] == "0" && "0"[..0] == "";
    assert DigitsValue("0") == 0;
    assert DigitsValue("00") == 0;
    assert DigitsValue("002") == 2;
  }

  /** "01/0025" splits into the month "01" and the year "0025". */
  lemma QuirkSplit()
    ensures SplitMonthYear("01/0025") == ("01", Some("0025"))
  {
    var s := "01/0025";
    assert s[2] == '/' && '/' !in s[..2];
    assert SlashIndex(s) == Some(2);
    assert s[3..] == "0025" && '/' !in s[3..];
    assert s[..2] == "01";
  }

  /** A value without a slash has no year and never falls due. */
  lemma NoSlashNeverDue(today: Today, s: string)
    requires '/' !in s
    ensures !IsDue(today, s)
  {
  }

  /** A users row, with the columns the job reads and writes. */
  datatype User = User(id: string, name: string, reg_no: string, role: string,
                       expected_graduation: string, graduation_status: Option<GraduationStatus>)

  /** The rows the job examines: the users whose status is "active", in
      table order. */
  function ActiveStudents(rows: seq<User>): (r: seq<User>)
    ensures forall u :: u in r <==> u in rows && u.graduation_status == Some(Active)
  {
    if rows == [] then []
    else
      var init := rows[..|rows| - 1];
      assert rows == init + [rows[|rows| - 1]];
      ActiveStudents(init) + (if rows[|rows| - 1].graduation_status == Some(Active) then [rows[|rows| - 1]] else [])
  }

  /** The registration numbers of the due students, in the order the job
      reaches them. */
  function DueRegNos(students: seq<User>, today: Today): (r: seq<string>)
    ensures forall x :: x in r <==> exists s :: s in students && IsDue(today, s.expected_graduation) && s.reg_no == x
  {
    if students == [] then []
    else
      var init := students[..|students| - 1];
      var last := students[|students| - 1];
      assert students == init + [last];
      DueRegNos(init, today) + (if IsDue(today, last.expected_graduation) then [last.reg_no] else [])
  }

  /** Reaching one more student of the snapshot adds its number exactly
      when it is due. */
  lemma DueRegNosStep(students: seq<User>, i: int, today: Today)
    requires 0 <= i < |students|
    ensures DueRegNos(students[..i + 1], today) ==
      DueRegNos(students[..i], today) + (if IsDue(today, students[i].expected_graduation) then [students[i].reg_no] else [])
  {
    assert students[..i + 1][..i] == students[..i];
  }

  /** Every row whose registration number is listed set to `status`. */
  function WithStatus(rows: seq<User>, reg_nos: seq<string>, status: GraduationStatus): (r: seq<User>)
    ensures |r| == |rows|
  {
    seq(|rows|, k requires 0 <= k < |rows| =>
          if rows[k].reg_no in reg_nos then rows[k].(graduation_status := Some(status)) else rows[k])
  }

  /** Two successive updates by registration number are one update by both
      lists. */
  lemma WithStatusStep(rows: seq<User>, reg_nos: seq<string>, reg_no: string, status: GraduationStatus)
    ensures WithStatus(WithStatus(rows, reg_nos, status), [reg_no], status) == WithStatus(rows, reg_nos + [reg_no], status)
  {
  }

  /** An update by registration number keeps every row and its number, so a
      student of the snapshot is still found. */
  lemma StudentStillListed(rows: seq<User>, reg_nos: seq<string>, student: User)
    requires student in ActiveStudents(rows)
    ensures exists u :: u in WithStatus(rows, reg_nos, Graduated) && u.reg_no == student.reg_no
  {
    var k :| 0 <= k < |rows| && rows[k] == student;
    assert WithStatus(rows, reg_nos, Graduated)[k].reg_no == student.reg_no;
  }

  /** The table after one run of the job on `today`. */
  function Graduate(rows: seq<User>, today: Today): seq<User> {
    WithStatus(rows, DueRegNos(ActiveStudents(rows), today), Graduated)
  }

  /** A run changes a row only by marking it graduated, and only when an
      active student with its registration number is due; it never reverts
      a graduated row. */
  lemma GraduateChanges(rows: seq<User>, today: Today, k: int)
    requires 0 <= k < |rows|
    ensures var after := Graduate(rows, today)[k];
      && (after == rows[k] || after == rows[k].(graduation_status := Some(Graduated)))
      && (after != rows[k] ==> exists s :: s in rows && s.graduation_status == Some(Active)
                                && IsDue(today, s.expected_graduation) && s.reg_no == rows[k].reg_no)
      && (rows[k].graduation_status == Some(Graduated) ==> after == rows[k])
  {
  }

  /** Every active student that is due is graduated. */
  lemma DueStudentGraduated(rows: seq<User>, today: Today, k: int)
    requires 0 <= k < |rows| && rows[k].graduation_status == Some(Active)
    requires IsDue(today, rows[k].expected_graduation)
    ensures Graduate(rows, today)[k].graduation_status == Some(Graduated)
  {
    assert rows[k] in ActiveStudents(rows);
  }

  /** No two users share a registration number. */
  predicate UniqueRegNos(rows: seq<User>) {
    forall i, j :: 0 <= i < j < |rows| ==> rows[i].reg_no != rows[j].reg_no
  }

  /** With unique registration numbers, users that are not active and
      students that are not yet due are left as they were. */
  lemma OthersUnchanged(rows: seq<User>, today: Today, k: int)
    requires UniqueRegNos(rows) && 0 <= k < |rows|
    requires rows[k].graduation_status != Some(Active) || !IsDue(today, rows[k].expected_graduation)
    ensures Graduate(rows, today)[k] == rows[k]
  {
    GraduateChanges(rows, today, k);
  }

  /** Registration numbers are not unique in the users table, and the
      update is by registration number: a deferred user sharing the number
      of a due active student is marked graduated too. */
  lemma SharedRegNoGraduated(rows: seq<User>, today: Today, j: int, k: int)
    requires 0 <= j < |rows| && 0 <= k < |rows|
    requires rows[j].graduation_status == Some(Active) && IsDue(today, rows[j].expected_graduation)
    requires rows[k].reg_no == rows[j].reg_no && rows[k].graduation_status == Some(Deferred)
    ensures Graduate(rows, today)[k].graduation_status == Some(Graduated)
  {
    assert rows[j] in ActiveStudents(rows);
  }

  /** A second run on the same day changes nothing. */
  lemma GraduateIdempotent(rows: seq<User>, today: Today)
    ensures Graduate(Graduate(rows, today), today) == Graduate(rows, today)
  {
    var once := Graduate(rows, today);
    forall u | u in ActiveStudents(once) ensures !IsDue(today, u.expected_graduation) {
      var k :| 0 <= k < |once| && once[k] == u;
      GraduateChanges(rows, today, k);
      assert once[k] == rows[k];
    }
    NoneDue(ActiveStudents(once), today);
    assert Graduate(once, today) == once;
  }

  lemma {:induction false} NoneDue(students: seq<User>, today: Today)
    requires forall u :: u in students ==> !IsDue(today, u.expected_graduation)
    ensures DueRegNos(students, today) == []
  {
    if students != [] {
      NoneDue(students[..|students| - 1], today);
    }
  }

  /** The users table. */
  class UserTable {
    var rows: seq<User>

    constructor (initial: seq<User>)
      ensures rows == initial
    {
      rows := initial;
    }

    /** `updateGraduationStatusService`: one update of every row with this
        registration number; an error when there is none. */
    method UpdateGraduationStatusService(reg_no: string, status: GraduationStatus)
      returns (r: Result<User, string>)
      modifies this
      ensures rows == WithStatus(old(rows), [reg_no], status)
      ensures r.Err? <==> forall u :: u in old(rows) ==> u.reg_no != reg_no
      ensures r.Err? ==> r.error == "Failed to update graduation status"
      ensures r.Ok? ==> r.value in rows && r.value.reg_no == reg_no && r.value.graduation_status == Some(status)
    {
      var before := rows;
      rows := WithStatus(before, [reg_no], status);
      if exists k :: 0 <= k < |before| && before[k].reg_no == reg_no {
        var k :| 0 <= k < |before| && before[k].reg_no == reg_no;
        r := Ok(rows[k]);
      } else {
        r := Err("Failed to update graduation status");
      }
    }

    /** `autoUpdateGraduationStatus`: walk a snapshot of the active
        students and mark each due one graduated, by registration number.
        `logged` lists the numbers updated, in order. */
    method AutoUpdateGraduationStatus(today: Today) returns (logged: seq<string>)
      modifies this
      ensures rows == Graduate(old(rows), today)
      ensures logged == DueRegNos(ActiveStudents(old(rows)), today)
    {
      var before := rows;
      var students := ActiveStudents(rows);
      logged := [];
      var i := 0;
      while i < |students|
        invariant 0 <= i <= |students|
        invariant rows == WithStatus(before, DueRegNos(students[..i], today), Graduated)
        invariant logged == DueRegNos(students[..i], today)
      {
        var student := students[i];
        DueRegNosStep(students, i, today);
        if IsDue(today, student.expected_graduation) {
          StudentStillListed(before, logged, student);
          WithStatusStep(before, logged, student.reg_no, Graduated);
          var outcome := UpdateGraduationStatusService(student.reg_no, Graduated);
          assert outcome.Ok?;
          logged := logged + [student.reg_no];
        }
        i := i + 1;
      }
      assert students[..i] == students;
    }
  }
}
