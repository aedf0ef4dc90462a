/** `CreateMoodleUserDto` under the global `ValidationPipe()`: the
    validators judge a copy with the `@Transform` lowercasing applied, the
    handler gets the body as sent, and the password must match
    `^(?=.*[a-z])(?=.*[A-Z])(?=.*\d)(?=.*[\W_]).{8,}$`. */
module MoodleUserDto {
  import opened Common

  /** The request body; `None` is a property that was not sent. */
  datatype MoodleUserBody = MoodleUserBody(username: Option<string>, email: Option<string>,
                                           firstname: Option<string>, lastname: Option<string>,
                                           password: Option<string>, auth: Option<string>)

  // -------------------------------------------------------- lowercasing

  function LowerChar(c: char): char {
    if 'A' <= c <= 'Z' then (c as int - 'A' as int + 'a' as int) as char else c
  }

  /** `value.toLowerCase()` on ASCII letters. */
  function ToLower(s: string): (r: string)
    ensures |r| == |s| && forall i :: 0 <= i < |s| ==> r[i] == LowerChar(s[i])
  {
    if |s| == 0 then [] else [LowerChar(s[0])] + ToLower(s[1..])
  }

  /** Lowercasing is idempotent and leaves no upper-case letter. */
  lemma ToLowerIdempotent(s: string)
    ensures ToLower(ToLower(s)) == ToLower(s)
    ensures forall i :: 0 <= i < |s| ==> !('A' <= ToLower(s)[i] <= 'Z')
  {
  }

  /** The `@Transform`s: applied only to properties that are present. */
  function Transformed(b: MoodleUserBody): (t: MoodleUserBody)
    ensures t.username.Some? <==> b.username.Some?
    ensures t.email.Some? <==> b.email.Some?
    ensures b.username.Some? ==> t.username.value == ToLower(b.username.value)
    ensures b.email.Some? ==> t.email.value == ToLower(b.email.value)
    ensures t.firstname == b.firstname && t.lastname == b.lastname && t.password == b.password && t.auth == b.auth
  {
    b.(username := if b.username.Some? then Some(ToLower(b.username.value)) else None,
       email := if b.email.Some? then Some(ToLower(b.email.value)) else None)
  }

  // ----------------------------------------------------- password regex

  /** The characters `.` does not match. */
  predicate IsLineTerminator(c: char) {
    c == '\n' || c == '\r' || c == '\U{2028}' || c == '\U{2029}'
  }

  predicate IsLower(c: char) { 'a' <= c <= 'z' }
  predicate IsUpper(c: char) { 'A' <= c <= 'Z' }
  predicate IsDigit(c: char) { '0' <= c <= '9' }
  /** `[\W_]`: anything but an ASCII letter or digit. */
  predicate IsSpecial(c: char) { !IsLower(c) && !IsUpper(c) && !IsDigit(c) }

  /** `(?=.*[x])` at the start: a character of the class, reached without
      crossing a line terminator. */
  predicate Lookahead(p: string, cls: char -> bool) {
    exists i :: 0 <= i < |p| && cls(p[i]) && forall j :: 0 <= j < i ==> !IsLineTerminator(p[j])
  }

  /** `.{8,}$` from the start: eight or more characters, none a line
      terminator, up to the end. */
  predicate DotsToEnd(p: string) {
    |p| >= 8 && forall j :: 0 <= j < |p| ==> !IsLineTerminator(p[j])
  }

  /** The regular expression, clause by clause. */
  predicate PasswordRegex(p: string) {
    Lookahead(p, IsLower) && Lookahead(p, IsUpper) && Lookahead(p, IsDigit) && Lookahead(p, IsSpecial)
    && DotsToEnd(p)
  }

  /** The rule in words: at least 8 characters on one line, with a lower-case
      letter, an upper-case letter, a digit and a special character. */
  predicate PasswordRule(p: string) {
    |p| >= 8 && (forall j :: 0 <= j < |p| ==> !IsLineTerminator(p[j]))
    && (exists i :: 0 <= i < |p| && IsLower(p[i])) && (exists i :: 0 <= i < |p| && IsUpper(p[i]))
    && (exists i :: 0 <= i < |p| && IsDigit(p[i])) && (exists i :: 0 <= i < |p| && IsSpecial(p[i]))
  }

  lemma LookaheadIsContains(p: string, cls: char -> bool)
    requires forall j :: 0 <= j < |p| ==> !IsLineTerminator(p[j])
    ensures Lookahead(p, cls) <==> exists i :: 0 <= i < |p| && cls(p[i])
  {
  }

  /** The regular expression accepts exactly the passwords the rule
      describes; `@MinLength(8)` adds nothing to it when length is counted
      in characters, as the regular expression counts them. */
  lemma PasswordRegexIsRule(p: string)
    ensures PasswordRegex(p) <==> PasswordRule(p)
    ensures PasswordRegex(p) ==> |p| >= 8
  {
    if forall j :: 0 <= j < |p| ==> !IsLineTerminator(p[j]) {
      LookaheadIsContains(p, IsLower);
      LookaheadIsContains(p, IsUpper);
      LookaheadIsContains(p, IsDigit);
      LookaheadIsContains(p, IsSpecial);
    }
  }

  /** A password with a line break is refused even when it has all four
      kinds of character. */
  lemma LineBreakRefused()
    ensures !PasswordRegex("Ab1!\nxyz")
  {
    assert IsLineTerminator("Ab1!\nxyz"[4]);
  }

  // ---------------------------------------------------------- validation

  /** The DTO's properties, as a validation error names them. */
  datatype Property = Username | Email | Firstname | Lastname | Password | Auth

  /** The validators of each property, on the transformed body. */
  predicate UsernameValid(t: MoodleUserBody) { t.username.Some? && t.username.value != "" }
  predicate EmailValid(t: MoodleUserBody, isEmail: string -> bool) {
    t.email.Some? && t.email.value != "" && isEmail(t.email.value)
  }
  predicate FirstnameValid(t: MoodleUserBody) { t.firstname.Some? && t.firstname.value != "" }
  predicate PasswordValid(t: MoodleUserBody) { t.password.None? || PasswordRegex(t.password.value) }

  /** The properties whose validators fail on the transformed body.
      `isEmail` is class-validator's e-mail check; `authRequired` says
      whether `auth` must be present (`@IsString()` without `@IsOptional()`). */
  function FailuresWith(b: MoodleUserBody, isEmail: string -> bool, authRequired: bool): (f: set<Property>)
    ensures Username in f <==> !(b.username.Some? && b.username.value != "")
    ensures Email in f <==> !(b.email.Some? && b.email.value != "" && isEmail(ToLower(b.email.value)))
    ensures Firstname in f <==> !(b.firstname.Some? && b.firstname.value != "")
    ensures Lastname in f <==> b.lastname.None?
    ensures Password in f <==> b.password.Some? && !PasswordRegex(b.password.value)
    ensures Auth in f <==> authRequired && b.auth.None?
    ensures f == {} <==> UsernameValid(Transformed(b)) && EmailValid(Transformed(b), isEmail)
                         && FirstnameValid(Transformed(b)) && b.lastname.Some? && PasswordValid(b)
                         && !(authRequired && b.auth.None?)
  {
    var t := Transformed(b);
    ValidOnTransformed(b, isEmail);
    (if !UsernameValid(t) then {Username} else {}) + (if !EmailValid(t, isEmail) then {Email} else {})
    + (if !FirstnameValid(t) then {Firstname} else {}) + (if t.lastname.None? then {Lastname} else {})
    + (if !PasswordValid(t) then {Password} else {}) + (if authRequired && t.auth.None? then {Auth} else {})
  }

  /** The validators read the transformed body; lowercasing keeps a text
      empty exactly when it was. */
  lemma ValidOnTransformed(b: MoodleUserBody, isEmail: string -> bool)
    ensures UsernameValid(Transformed(b)) <==> b.username.Some? && b.username.value != ""
    ensures EmailValid(Transformed(b), isEmail) <==> b.email.Some? && b.email.value != "" && isEmail(ToLower(b.email.value))
    ensures FirstnameValid(Transformed(b)) <==> b.firstname.Some? && b.firstname.value != ""
    ensures PasswordValid(Transformed(b)) <==> PasswordValid(b)
  {
    var t := Transformed(b);
    assert b.username.Some? ==> (|t.username.value| == 0 <==> |b.username.value| == 0);
    assert b.email.Some? ==> (|t.email.value| == 0 <==> |b.email.value| == 0);
  }

  const VALIDATION_FAILED := HttpException(BAD_REQUEST, Text("Bad Request"))

  /** `ValidationPipe()` as the application installs it, with no options
      and no `transform`: the validators run on the transformed instance,
      a 400 when any of them fails; otherwise the handler gets the value
      it was given, the body as sent, case and all. */
  function Pipe(b: MoodleUserBody, isEmail: string -> bool): (r: Result<MoodleUserBody>)
    ensures r.Ok? <==> FailuresWith(b, isEmail, true) == {}
    ensures r.Ok? ==> r.value == b
    ensures r.Err? ==> r.error == VALIDATION_FAILED
  {
    if FailuresWith(b, isEmail, true) == {} then Ok(b) else Err(VALIDATION_FAILED)
  }

  /** What an accepted body satisfies. */
  lemma PipeAccepts(b: MoodleUserBody, isEmail: string -> bool)
    requires Pipe(b, isEmail).Ok?
    ensures b.username.Some? && b.username.value != ""
    ensures b.email.Some? && isEmail(ToLower(b.email.value))
    ensures b.firstname.Some? && b.firstname.value != "" && b.lastname.Some?
    ensures b.password.Some? ==> PasswordRule(b.password.value)
    ensures b.auth.Some?
  {
    var f := FailuresWith(b, isEmail, true);
    assert Username !in f && Email !in f && Firstname !in f && Lastname !in f;
    assert Password !in f && Auth !in f;
    if b.password.Some? { PasswordRegexIsRule(b.password.value); }
  }

  /** The handler gets the body as sent, while the verdict is the one on
      the lowercased copy: that copy holds no upper-case letter in its
      username and e-mail and passes the pipe in its own right. */
  lemma HandlerSeesBodyAsSent(b: MoodleUserBody, isEmail: string -> bool)
    requires Pipe(b, isEmail).Ok?
    ensures Pipe(b, isEmail).value == b
    ensures var t := Transformed(b);
            t.username.Some? && t.email.Some?
            && (forall i :: 0 <= i < |t.username.value| ==> !IsUpper(t.username.value[i]))
            && (forall i :: 0 <= i < |t.email.value| ==> !IsUpper(t.email.value[i]))
            && Pipe(t, isEmail) == Ok(t)
  {
    var t := Transformed(b);
    PipeAccepts(b, isEmail);
    ToLowerIdempotent(b.username.value);
    ToLowerIdempotent(b.email.value);
    assert Transformed(t) == t;
  }

  /** Lowercasing leaves a text without upper-case letters as it is. */
  lemma ToLowerKeepsLower(s: string)
    requires forall i :: 0 <= i < |s| ==> !IsUpper(s[i])
    ensures ToLower(s) == s
  {
  }

  /** A username with an upper-case letter reaches the handler unchanged. */
  lemma UpperCaseReachesHandler(isEmail: string -> bool)
    requires isEmail("ann@uni.edu")
    ensures var b := MoodleUserBody(Some("Ann"), Some("ann@uni.edu"), Some("Ann"), Some("Lee"),
                                    None, Some("manual"));
            Pipe(b, isEmail) == Ok(b) && Pipe(b, isEmail).value.username == Some("Ann")
  {
    var b := MoodleUserBody(Some("Ann"), Some("ann@uni.edu"), Some("Ann"), Some("Lee"),
                            None, Some("manual"));
    ToLowerKeepsLower("ann@uni.edu");
    assert Email !in FailuresWith(b, isEmail, true);
  }

  /** As written, a body without `auth` is refused, although the property
      is declared optional and the registration falls back to 'manual'. */
  lemma MissingAuthRefused(b: MoodleUserBody, isEmail: string -> bool)
    requires b.auth.None?
    ensures Pipe(b, isEmail) == Err(VALIDATION_FAILED)
  {
    assert Auth in FailuresWith(b, isEmail, true);
  }

  /** The pipe with `auth` optional, as its declaration means. */
  function PipeIntended(b: MoodleUserBody, isEmail: string -> bool): (r: Result<MoodleUserBody>)
    ensures r.Ok? <==> FailuresWith(b, isEmail, false) == {}
    ensures r.Ok? ==> r.value == b
    ensures r.Err? ==> r.error == VALIDATION_FAILED
  {
    if FailuresWith(b, isEmail, false) == {} then Ok(b) else Err(VALIDATION_FAILED)
  }

  /** The intended pipe accepts a body exactly when the written one accepts
      the same body with some `auth` added. */
  lemma IntendedIgnoresAuth(b: MoodleUserBody, isEmail: string -> bool, auth: string)
    ensures PipeIntended(b, isEmail).Ok? <==> Pipe(b.(auth := Some(auth)), isEmail).Ok?
  {
    var f0 := FailuresWith(b, isEmail, false);
    var f1 := FailuresWith(b.(auth := Some(auth)), isEmail, true);
    assert Auth !in f0 && Auth !in f1;
    assert forall x :: x in f0 <==> x in f1;
    assert f0 == f1;
  }
}
