/** The field validators of the user-management portal (email, username, department)
    and the `validate_user_data` decorator that runs them before a handler. */
module UserValidation {
  import opened Wrappers
  import opened Text

  /** A keyword argument's value: `None`, a string, or any other object together with
      its Python truthiness. */
  datatype Value = Null | Str(s: string) | Other(truthy: bool)

  /** Python's `if value:`. */
  predicate Truthy(v: Value) {
    match v
    case Null => false
    case Str(s) => s != []
    case Other(t) => t
  }

  /** The characters of `[a-zA-Z0-9._%+-]`, the part before the `@`. */
  predicate IsLocalChar(c: char) {
    IsAsciiAlnum(c) || c == '.' || c == '_' || c == '%' || c == '+' || c == '-'
  }

  /** The characters of `[a-zA-Z0-9.-]`, the domain before its last dot. */
  predicate IsDomainChar(c: char) {
    IsAsciiAlnum(c) || c == '.' || c == '-'
  }

  /** `t` is `[a-zA-Z0-9._%+-]+@[a-zA-Z0-9.-]+\.[a-zA-Z]{2,}` with the `@` at `at` and
      the dot before the top-level label at `dot`. */
  ghost predicate EmailShapeAt(t: string, at: int, dot: int) {
    0 < at && at + 1 < dot && dot + 2 < |t| && t[at] == '@' && t[dot] == '.'
    && (forall k :: 0 <= k < at ==> IsLocalChar(t[k]))
    && (forall k :: at < k < dot ==> IsDomainChar(t[k]))
    && (forall k :: dot < k < |t| ==> IsAsciiLetter(t[k]))
  }

  /** The whole of `t` matches the email pattern, for some way of cutting it. */
  ghost predicate EmailShape(t: string) {
    exists at, dot :: EmailShapeAt(t, at, dot)
  }

  /** The email pattern on the whole of `t`: the local part runs up to the first `@`,
      the top-level label starts after the last dot. */
  predicate MatchesEmail(t: string) {
    var at, dot := FirstIndex(t, '@'), LastIndex(t, '.');
    0 < at && at + 1 < dot && dot + 2 < |t|
    && (forall k :: 0 <= k < at ==> IsLocalChar(t[k]))
    && (forall k :: at < k < dot ==> IsDomainChar(t[k]))
    && (forall k :: dot < k < |t| ==> IsAsciiLetter(t[k]))
  }

  /** `re.match('^' + p + '$', s)`: Python's `$` also matches just before a final
      newline, so `s` matches when all of it, or all of it but a final `'\n'`, does. */
  predicate MatchesToEnd(s: string, full: string -> bool) {
    full(s) || (s != [] && s[|s| - 1] == '\n' && full(s[..|s| - 1]))
  }

  /** `[a-zA-Z0-9]+` on the whole string. */
  predicate AlnumRun(t: string) {
    t != [] && forall k :: 0 <= k < |t| ==> IsAsciiAlnum(t[k])
  }

  /** `validate_email`: a value that is not a string makes `re.match` raise, which the
      validator turns into False. */
  predicate ValidateEmail(v: Value) {
    v.Str? && MatchesToEnd(v.s, MatchesEmail)
  }

  /** `validate_username`: 6 to 20 characters matching `^[a-zA-Z0-9]+$`. */
  predicate ValidateUsername(v: Value) {
    v.Str? && 6 <= |v.s| <= 20 && MatchesToEnd(v.s, AlnumRun)
  }

  /** `VALID_DEPARTMENTS`. */
  const Departments: set<string> := {"Tech", "RRHH", "Sales"}

  /** `validate_department`: case-sensitive membership; no other object equals one of
      the three strings. */
  predicate ValidateDepartment(v: Value) {
    v.Str? && v.s in Departments
  }

  /** The deterministic reading of the pattern agrees with the pattern itself: some
      cut of the string matches exactly when the cut at the first `@` and the last
      dot does. */
  lemma EmailShapeIff(t: string)
    ensures MatchesEmail(t) <==> EmailShape(t)
  {
    var at, dot := FirstIndex(t, '@'), LastIndex(t, '.');
    if MatchesEmail(t) {
      assert EmailShapeAt(t, at, dot);
    }
    if EmailShape(t) {
      var a, d :| EmailShapeAt(t, a, d);
      assert !IsLocalChar('@') && !IsAsciiLetter('.');
      assert at == a && dot == d;
    }
  }

  /** An accepted email is the pattern over the whole string, possibly followed by one
      newline. */
  lemma EmailSpec(s: string)
    ensures ValidateEmail(Str(s)) <==>
              EmailShape(s) || (s != [] && s[|s| - 1] == '\n' && EmailShape(s[..|s| - 1]))
  {
    EmailShapeIff(s);
    if s != [] {
      EmailShapeIff(s[..|s| - 1]);
    }
  }

  /** An accepted email holds exactly one `@`, with something before it. */
  lemma EmailOneAt(s: string)
    requires ValidateEmail(Str(s))
    ensures exists i :: 0 < i < |s| && s[i] == '@'
    ensures forall i, j :: 0 <= i < |s| && 0 <= j < |s| && s[i] == '@' && s[j] == '@' ==> i == j
  {
    var t := if MatchesEmail(s) then s else s[..|s| - 1];
    assert MatchesEmail(t);
    var at, dot := FirstIndex(t, '@'), LastIndex(t, '.');
    assert !IsDomainChar('@') && !IsAsciiLetter('@') && !IsLocalChar('@');
    forall i | 0 <= i < |s| && s[i] == '@' ensures i == at {
      if i < |t| {
        assert t[i] == s[i];
      }
    }
    assert s[at] == t[at];
  }

  /** The documented example of an accepted address. */
  lemma EmailAccepted()
    ensures ValidateEmail(Str("user@example.com"))
  {
    var good := "user@example.com";
    assert forall k :: 0 <= k < 4 ==> IsLocalChar(good[k]);
    assert forall k :: 4 < k < 12 ==> IsDomainChar(good[k]);
    assert forall k :: 12 < k < |good| ==> IsAsciiLetter(good[k]);
    assert EmailShapeAt(good, 4, 12);
    EmailShapeIff(good);
  }

  /** The documented example of a rejected address: it has no `@`. */
  lemma EmailRejected()
    ensures !ValidateEmail(Str("invalid-email"))
  {
    var bad := "invalid-email";
    assert forall k :: 0 <= k < |bad| ==> bad[k] != '@';
    var at := FirstIndex(bad, '@');
    assert at == |bad|;
  }

  /** An accepted username has 6 to 20 characters, all ASCII letters or digits except
      possibly a final newline. */
  lemma UsernameSpec(s: string)
    ensures ValidateUsername(Str(s)) <==>
              6 <= |s| <= 20
              && (forall k :: 0 <= k < |s| - 1 ==> IsAsciiAlnum(s[k]))
              && (IsAsciiAlnum(s[|s| - 1]) || s[|s| - 1] == '\n')
  {
    if 6 <= |s| <= 20 {
      var init := s[..|s| - 1];
      assert forall k :: 0 <= k < |s| - 1 ==> init[k] == s[k];
      if IsAsciiAlnum(s[|s| - 1]) && forall k :: 0 <= k < |s| - 1 ==> IsAsciiAlnum(s[k]) {
        assert AlnumRun(s);
      }
    }
  }

  /** The documented examples. */
  lemma UsernameExamples()
    ensures ValidateUsername(Str("validUser123"))
    ensures !ValidateUsername(Str("short"))
  {
    var good := "validUser123";
    assert AlnumRun(good) by {
      assert forall k :: 0 <= k < |good| ==> IsAsciiAlnum(good[k]);
    }
  }

  /** A value that is not a string is rejected by all three validators instead of
      raising. */
  lemma NonStringsRejected(v: Value)
    requires !v.Str?
    ensures !ValidateEmail(v) && !ValidateUsername(v) && !ValidateDepartment(v)
  {
  }

  /** What a handler does: return a value or raise. */
  datatype Raised = HttpException(status: int, detail: string) | OtherException(message: string)

  const EmailDetail := "Invalid email format"
  const UsernameDetail := "Username must be 6-20 characters long and contain only alphanumeric characters"
  const DepartmentDetail := "Department must be one of: Tech, RRHH, Sales"
  const InternalDetail := "Internal server error during validation"

  /** `kwargs.get(key)`. */
  function Arg(kwargs: map<string, Value>, key: string): Value {
    if key in kwargs then kwargs[key] else Null
  }

  /** The decorator's test of one field: a falsy value is not looked at. */
  predicate FieldPasses(v: Value, valid: Value -> bool) {
    !Truthy(v) || valid(v)
  }

  /** Every field the decorator checks passes its check. */
  predicate FieldsPass(kwargs: map<string, Value>) {
    FieldPasses(Arg(kwargs, "email"), ValidateEmail)
    && FieldPasses(Arg(kwargs, "username"), ValidateUsername)
    && FieldPasses(Arg(kwargs, "department"), ValidateDepartment)
  }

  /** `validate_user_data(func)` called with `kwargs`: the truthy email, username and
      department are checked in that order and the first failure is a 400; otherwise
      the handler runs, its HTTP errors pass through and any other error becomes a 500. */
  function ValidateUserData<T>(kwargs: map<string, Value>, handler: map<string, Value> -> Result<T, Raised>)
    : Result<T, Raised>
  {
    var email, username, department := Arg(kwargs, "email"), Arg(kwargs, "username"), Arg(kwargs, "department");
    if Truthy(email) && !ValidateEmail(email) then Err(HttpException(400, EmailDetail))
    else if Truthy(username) && !ValidateUsername(username) then Err(HttpException(400, UsernameDetail))
    else if Truthy(department) && !ValidateDepartment(department) then Err(HttpException(400, DepartmentDetail))
    else
      match handler(kwargs)
      case Ok(v) => Ok(v)
      case Err(HttpException(status, detail)) => Err(HttpException(status, detail))
      case Err(OtherException(_)) => Err(HttpException(500, InternalDetail))
  }

  /** When a field fails, the answer is a 400 that does not depend on the handler: the
      handler is never called. */
  lemma RejectedBeforeHandler<T>(kwargs: map<string, Value>, f: map<string, Value> -> Result<T, Raised>,
                                 g: map<string, Value> -> Result<T, Raised>)
    requires !FieldsPass(kwargs)
    ensures ValidateUserData(kwargs, f) == ValidateUserData(kwargs, g)
    ensures ValidateUserData(kwargs, f).Err? && ValidateUserData(kwargs, f).error.status == 400
  {
  }

  /** An invalid email is reported whatever the other fields hold; an invalid username
      is reported whenever the email passes. */
  lemma ValidationOrder<T>(kwargs: map<string, Value>, f: map<string, Value> -> Result<T, Raised>)
    ensures !FieldPasses(Arg(kwargs, "email"), ValidateEmail) ==>
              ValidateUserData(kwargs, f) == Err(HttpException(400, EmailDetail))
    ensures FieldPasses(Arg(kwargs, "email"), ValidateEmail) && !FieldPasses(Arg(kwargs, "username"), ValidateUsername) ==>
              ValidateUserData(kwargs, f) == Err(HttpException(400, UsernameDetail))
  {
  }

  /** The decorated call succeeds exactly when every checked field passes and the
      handler returns, and then it returns the handler's own result; every error it
      raises is an HTTP error, a 500 only when the handler raised something else. */
  lemma DecoratorOutcome<T>(kwargs: map<string, Value>, f: map<string, Value> -> Result<T, Raised>)
    ensures ValidateUserData(kwargs, f).Ok? <==> FieldsPass(kwargs) && f(kwargs).Ok?
    ensures ValidateUserData(kwargs, f).Ok? ==> ValidateUserData(kwargs, f).value == f(kwargs).value
    ensures ValidateUserData(kwargs, f).Err? ==> ValidateUserData(kwargs, f).error.HttpException?
    ensures FieldsPass(kwargs) && f(kwargs).Err? && f(kwargs).error.HttpException? ==>
              ValidateUserData(kwargs, f) == f(kwargs)
    ensures FieldsPass(kwargs) && f(kwargs).Err? && f(kwargs).error.OtherException? ==>
              ValidateUserData(kwargs, f) == Err(HttpException(500, InternalDetail))
  {
  }

  /** An empty or missing field is never rejected. */
  lemma FalsyFieldsSkipped(kwargs: map<string, Value>)
    requires !Truthy(Arg(kwargs, "email")) && !Truthy(Arg(kwargs, "username")) && !Truthy(Arg(kwargs, "department"))
    ensures FieldsPass(kwargs)
  {
  }
}
