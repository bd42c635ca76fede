/** The account schemas (src/validators/Auth.validator.ts): registration,
    login, first-time profile completion and password change. Each schema
    either accepts a payload, giving the parsed data, or rejects it; lengths
    are counted in characters. */
module AuthValidator {
  import opened Common

  /** The roles a registration may ask for. The account-role enumeration of
      the users table also has "Accountants"; registration does not. */
  const AllowedRoles: seq<string> := [
    "voter", "admin", "Dean_of_Science", "Dean_of_Education", "Dean_of_Business",
    "Dean_of_Humanities_and_Developmental_Studies", "Dean_of_TVET", "Dean_of_Students"]

  const DefaultRole: string := "voter"

  const ProfileSchools: seq<string> := ["Science", "Education", "Business", "Humanities and Developmental_Studies", "TVET"]

  /** The characters that string trimming removes: the ECMAScript white space
      and line terminator characters. */
  predicate IsWhitespace(c: char) {
    || c == ' ' || c == '\t' || c == '\n' || c == '\r' || c == '\U{B}' || c == '\U{C}'
    || c == '\U{A0}' || c == '\U{FEFF}' || c == '\U{1680}' || ('\U{2000}' <= c <= '\U{200A}')
    || c == '\U{2028}' || c == '\U{2029}' || c == '\U{202F}' || c == '\U{205F}' || c == '\U{3000}'
  }

  function TrimStart(s: string): (r: string)
    ensures |r| <= |s| && r == s[|s| - |r|..]
    ensures r == [] || !IsWhitespace(r[0])
    ensures forall i :: 0 <= i < |s| - |r| ==> IsWhitespace(s[i])
  {
    if s != [] && IsWhitespace(s[0]) then TrimStart(s[1..]) else s
  }

  function TrimEnd(s: string): (r: string)
    ensures |r| <= |s| && r == s[..|r|]
    ensures r == [] || !IsWhitespace(r[|r| - 1])
    ensures forall i :: |r| <= i < |s| ==> IsWhitespace(s[i])
  {
    if s != [] && IsWhitespace(s[|s| - 1]) then TrimEnd(s[..|s| - 1]) else s
  }

  /** What `.trim()` leaves: the string without leading and trailing white
      space. */
  function Trim(s: string): string {
    TrimEnd(TrimStart(s))
  }

  lemma TrimEndOfClean(s: string)
    requires s == [] || !IsWhitespace(s[|s| - 1])
    ensures TrimEnd(s) == s
  {
  }

  lemma TrimStartOfClean(s: string)
    requires s == [] || !IsWhitespace(s[0])
    ensures TrimStart(s) == s
  {
  }

  /** Trimming is a contiguous piece of the input with no white space at
      either end, and trimming again changes nothing. */
  lemma TrimProperties(s: string)
    ensures exists i, j :: 0 <= i <= j <= |s| && Trim(s) == s[i..j]
    ensures Trim(s) == [] || (!IsWhitespace(Trim(s)[0]) && !IsWhitespace(Trim(s)[|Trim(s)| - 1]))
    ensures Trim(Trim(s)) == Trim(s)
  {
    var a := TrimStart(s);
    var r := TrimEnd(a);
    assert r == s[|s| - |a|..][..|r|];
    assert r == s[|s| - |a|..|s| - |a| + |r|];
    if r != [] {
      assert r[0] == a[0];
      TrimStartOfClean(r);
    }
    TrimEndOfClean(r);
  }

  predicate IsAsciiLetter(c: char) { ('a' <= c <= 'z') || ('A' <= c <= 'Z') }

  /** The registration-number pattern: one or more ASCII letters, digits or
      slashes, and nothing else. */
  predicate RegNoPattern(s: string) {
    |s| >= 1 && forall i :: 0 <= i < |s| ==> IsAsciiLetter(s[i]) || IsDigit(s[i]) || s[i] == '/'
  }

  /** The expected-graduation pattern: a month 01 to 12 in two digits, a
      slash, then exactly four digits. */
  predicate GraduationPattern(s: string) {
    && |s| == 7
    && ((s[0] == '0' && '1' <= s[1] <= '9') || (s[0] == '1' && '0' <= s[1] <= '2'))
    && s[2] == '/'
    && AllDigits(s[3..])
  }

  datatype RegisterInput = RegisterInput(reg_no: Option<string>, password: Option<string>, role: Option<string>)
  datatype Registration = Registration(reg_no: string, password: Option<string>, role: string)

  /** `registerUserValidator`: the length rule is checked on the raw value,
      the pattern on the trimmed one, and the trimmed value is what parses
      out. An absent role becomes "voter". */
  function RegisterUser(input: RegisterInput): (r: Option<Registration>)
    ensures r.Some? <==>
      && input.reg_no.Some? && |input.reg_no.value| >= 3 && RegNoPattern(Trim(input.reg_no.value))
      && (input.role.None? || input.role.value in AllowedRoles)
    ensures r.Some? ==> r.value.reg_no == Trim(input.reg_no.value) && r.value.password == input.password
    ensures r.Some? ==> r.value.role in AllowedRoles
    ensures r.Some? && input.role.None? ==> r.value.role == DefaultRole
    ensures r.Some? && input.role.Some? ==> r.value.role == input.role.value
  {
    if input.reg_no.None? || |input.reg_no.value| < 3 then None
    else
      var reg_no := Trim(input.reg_no.value);
      if !RegNoPattern(reg_no) then None
      else if input.role.Some? && input.role.value !in AllowedRoles then None
      else Some(Registration(reg_no, input.password, if input.role.Some? then input.role.value else DefaultRole))
  }

  /** "Accountants" is a role of the users table that registration
      refuses. */
  lemma AccountantsRefused(reg_no: string)
    ensures RegisterUser(RegisterInput(Some(reg_no), None, Some("Accountants"))).None?
  {
    assert "Accountants" !in AllowedRoles;
  }

  /** The length rule runs before trimming: a padded one-character number is
      accepted, and the stored number is shorter than the rule demands, so
      the login schema refuses it whatever the password. */
  lemma PaddedRegNoAccepted()
    ensures var r := RegisterUser(RegisterInput(Some(" A "), None, None));
      && r.Some? && r.value.reg_no == "A" && |r.value.reg_no| < 3
      && forall password, secret_code :: LoginUser(LoginInput(Some(r.value.reg_no), password, secret_code)).None?
  {
    var padded := " A ";
    assert padded[1..] == "A " && !IsWhitespace('A');
    assert TrimStart(padded) == TrimStart("A ") == "A ";
    assert "A "[..1] == "A";
    assert TrimEnd("A ") == TrimEnd("A") == "A";
    assert RegNoPattern("A");
  }

  datatype LoginInput = LoginInput(reg_no: Option<string>, password: Option<string>, secret_code: Option<string>)

  /** `loginUserValidator`: both fields present with at least 3 characters;
      the data is passed on untrimmed. */
  function LoginUser(input: LoginInput): (r: Option<LoginInput>)
    ensures r.Some? <==> input.reg_no.Some? && |input.reg_no.value| >= 3 && input.password.Some? && |input.password.value| >= 3
    ensures r.Some? ==> r.value == input
  {
    if input.reg_no.Some? && |input.reg_no.value| >= 3 && input.password.Some? && |input.password.value| >= 3
    then Some(input) else None
  }

  datatype ProfileInput = ProfileInput(name: Option<string>, school: Option<string>, expected_graduation: Option<string>, email: Option<string>)
  datatype Profile = Profile(name: string, school: string, expected_graduation: string, email: string)

  /** `completeProfileValidator`. */
  function CompleteProfile(input: ProfileInput, fmt: Formats): (r: Option<Profile>)
    ensures r.Some? <==>
      && input.name.Some? && |input.name.value| >= 3
      && input.school.Some? && input.school.value in ProfileSchools
      && input.expected_graduation.Some? && GraduationPattern(input.expected_graduation.value)
      && input.email.Some? && fmt.isEmail(input.email.value)
    ensures r.Some? ==> r.value == Profile(input.name.value, input.school.value, input.expected_graduation.value, input.email.value)
  {
    if && input.name.Some? && |input.name.value| >= 3
       && input.school.Some? && input.school.value in ProfileSchools
       && input.expected_graduation.Some? && GraduationPattern(input.expected_graduation.value)
       && input.email.Some? && fmt.isEmail(input.email.value)
    then Some(Profile(input.name.value, input.school.value, input.expected_graduation.value, input.email.value))
    else None
  }

  /** `updatePasswordValidator`. */
  function UpdatePassword(password: Option<string>): (r: Option<string>)
    ensures r.Some? <==> password.Some? && |password.value| >= 3
    ensures r.Some? ==> r == password
  {
    if password.Some? && |password.value| >= 3 then password else None
  }
}
