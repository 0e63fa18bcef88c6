/**
 * Register and login request validation (apps/validations/auth_validation.py).
 * Each validator checks its rules in order and reports the first one that
 * fails; the characters classes are the ASCII ones.
 */
module AuthValidation {
  import opened Common

  const NoData := "Không có dữ liệu"
  const MissingPrefix := "Thiếu field bắt buộc: "
  const UsernameLength := "Username phải có 3-50 ký tự"
  const UsernameChars := "Username chỉ được chứa chữ, số, gạch dưới"
  const EmailInvalid := "Email không hợp lệ"
  const PasswordShort := "Password phải có ít nhất 8 ký tự"
  const PasswordLong := "Password không được vượt quá 128 ký tự"
  const PasswordNoUpper := "Password phải có ít nhất 1 chữ cái viết hoa"
  const PasswordNoLower := "Password phải có ít nhất 1 chữ cái viết thường"
  const PasswordNoDigit := "Password phải có ít nhất 1 chữ số"
  const PasswordNoSpecial := "Password phải có ít nhất 1 ký tự đặc biệt (!@#$%^&*...)"
  const UsernameRequired := "Username là bắt buộc"
  const PasswordRequired := "Password là bắt buộc"

  /** The register body's required fields, in the order they are checked. */
  const RequiredFields := ["username", "email", "full_name", "password"]

  const SpecialChars := "!@#$%^&*()_+-=[]{}|;:,.<>?"

  // ------------------------------------------------------------ regular expressions

  /** `[a-zA-Z0-9_]` */
  predicate IsWordChar(c: char) { IsAsciiLetter(c) || IsAsciiDigit(c) || c == '_' }

  /** `[a-zA-Z0-9._%+-]` */
  predicate IsLocalChar(c: char) { IsAsciiLetter(c) || IsAsciiDigit(c) || c in "._%+-" }

  /** `[a-zA-Z0-9.-]` */
  predicate IsDomainChar(c: char) { IsAsciiLetter(c) || IsAsciiDigit(c) || c == '.' || c == '-' }

  /** `[a-zA-Z0-9_]+` matches all of `s`. */
  predicate WordRun(s: string) {
    |s| > 0 && forall k :: 0 <= k < |s| ==> IsWordChar(s[k])
  }

  /** `re.match(r'^[a-zA-Z0-9_]+$', s)`: `$` also matches before one final newline. */
  predicate UsernamePattern(s: string) {
    WordRun(s) || (|s| > 0 && s[|s| - 1] == '\n' && WordRun(s[..|s| - 1]))
  }

  /**
   * The language of `[a-zA-Z0-9._%+-]+@[a-zA-Z0-9.-]+\.[a-zA-Z]{2,}`, witnessed
   * by the position `a` of the `@` and the position `d` of the dot before the TLD.
   */
  predicate EmailSplit(s: string, a: int, d: int) {
    && 0 < a && a + 1 < d && d + 2 < |s|
    && s[a] == '@' && s[d] == '.'
    && (forall k :: 0 <= k < a ==> IsLocalChar(s[k]))
    && (forall k :: a < k < d ==> IsDomainChar(s[k]))
    && (forall k :: d < k < |s| ==> IsAsciiLetter(s[k]))
  }

  ghost predicate EmailLanguage(s: string) {
    exists a, d :: EmailSplit(s, a, d)
  }

  /**
   * The same language decided directly: the `@` is the first one (the local
   * part cannot hold another), and the TLD follows the last dot after it.
   */
  predicate EmailShape(s: string) {
    match IndexOf(s, '@')
    case None => false
    case Some(a) =>
      match LastIndexOf(s[a + 1..], '.')
      case None => false
      case Some(d) => EmailSplit(s, a, a + 1 + d)
  }

  lemma EmailShapeIsLanguage(s: string)
    ensures EmailShape(s) <==> EmailLanguage(s)
  {
    if EmailLanguage(s) {
      var a, d :| EmailSplit(s, a, d);
      assert forall k :: 0 <= k < a ==> s[k] != '@';
      assert IndexOf(s, '@') == Some(a);
      var rest := s[a + 1..];
      assert rest[d - a - 1] == '.';
      forall k | d - a - 1 < k < |rest| ensures rest[k] != '.' {
        assert rest[k] == s[a + 1 + k];
      }
      assert LastIndexOf(rest, '.') == Some(d - a - 1);
    }
  }

  /** `re.match(email_pattern, s)`, with the trailing-newline allowance of `$`. */
  predicate EmailPattern(s: string) {
    EmailShape(s) || (|s| > 0 && s[|s| - 1] == '\n' && EmailShape(s[..|s| - 1]))
  }

  // ------------------------------------------------------------ password rules

  /** `str.isupper()` over ASCII: some upper-case letter and no lower-case one. */
  predicate IsUpperText(s: string) {
    (exists k :: 0 <= k < |s| && IsAsciiUpper(s[k])) && forall k :: 0 <= k < |s| ==> !IsAsciiLower(s[k])
  }

  /** `str.islower()` over ASCII. */
  predicate IsLowerText(s: string) {
    (exists k :: 0 <= k < |s| && IsAsciiLower(s[k])) && forall k :: 0 <= k < |s| ==> !IsAsciiUpper(s[k])
  }

  /** `str.isdigit()` over ASCII. */
  predicate IsDigitText(s: string) {
    |s| > 0 && forall k :: 0 <= k < |s| ==> IsAsciiDigit(s[k])
  }

  /** `c in special_chars` for a string `c`: a substring test. */
  predicate IsSpecialText(s: string) {
    Contains(SpecialChars, s)
  }

  /** `any(test(x) for x in xs)` over list elements; a non-string element raises `exc`. */
  function AnyElement(xs: seq<Value>, test: string -> bool, exc: Exc): Py<bool> {
    if xs == [] then Ret(false)
    else if !xs[0].Str? then Raise(exc)
    else if test(xs[0].s) then Ret(true)
    else AnyElement(xs[1..], test, exc)
  }

  /**
   * `any(test(c) for c in v)`: a string yields its characters, a list its
   * elements and a dict its keys.
   */
  function AnyItem(v: Value, test: string -> bool, exc: Exc): Py<bool> {
    match v
    case Str(s) => Ret(exists k :: 0 <= k < |s| && test([s[k]]))
    case Arr(xs) => AnyElement(xs, test, exc)
    case Obj(m) => Ret(exists k :: k in m && test(k))
    case _ => Raise(TypeError)
  }

  /**
   * The password rules of `validate_register_data`: the message
   * of the first rule that fails, or None when all pass.
   */
  function PasswordProblem(v: Value): Py<Option<string>> {
    match Len(v)
    case Raise(e) => Raise(e)
    case Ret(n) =>
      if n < 8 then Ret(Some(PasswordShort))
      else if n > 128 then Ret(Some(PasswordLong))
      else match AnyItem(v, IsUpperText, AttributeError)
        case Raise(e) => Raise(e)
        case Ret(up) => if !up then Ret(Some(PasswordNoUpper))
        else match AnyItem(v, IsLowerText, AttributeError)
          case Raise(e) => Raise(e)
          case Ret(low) => if !low then Ret(Some(PasswordNoLower))
          else match AnyItem(v, IsDigitText, AttributeError)
            case Raise(e) => Raise(e)
            case Ret(dig) => if !dig then Ret(Some(PasswordNoDigit))
            else match AnyItem(v, IsSpecialText, TypeError)
              case Raise(e) => Raise(e)
              case Ret(sp) => if !sp then Ret(Some(PasswordNoSpecial)) else Ret(None)
  }

  /** The username rules of `validate_register_data` on the stripped name. */
  function UsernameProblem(username: string): Option<string> {
    if |username| < 3 || |username| > 50 then Some(UsernameLength)
    else if !UsernamePattern(username) then Some(UsernameChars)
    else None
  }

  // ------------------------------------------------------------ the validators

  /** A required field that fails the `field not in data or not data[field]` test. */
  predicate Missing(d: Body, f: string) {
    f !in d || !Truthy(d[f])
  }

  /** `validate_register_data(data)` */
  function ValidateRegisterData(data: Option<Body>): (r: Py<Verdict>)
    ensures data.None? || data.value == map[] ==> r == Ret(Verdict(false, NoData))
    ensures r.Ret? && r.value.ok ==>
      && data.Some? && "username" in data.value && "email" in data.value && "full_name" in data.value
      && "password" in data.value && Truthy(data.value["full_name"]) && Truthy(data.value["password"])
  {
    if data.None? || data.value == map[] then Ret(Verdict(false, NoData))
    else
      var d := data.value;
      match First(RequiredFields, f => Missing(d, f))
      case Some(i) => Ret(Verdict(false, MissingPrefix + RequiredFields[i]))
      case None => FieldRules(d)
  }

  /** The rules `validate_register_data` checks once every required field is present. */
  function FieldRules(d: Body): Py<Verdict>
    requires "username" in d && "email" in d && "password" in d
  {
    match StripValue(d["username"])
    case Raise(e) => Raise(e)
    case Ret(username) =>
      match UsernameProblem(username)
      case Some(m) => Ret(Verdict(false, m))
      case None =>
        match StripValue(d["email"])
        case Raise(e) => Raise(e)
        case Ret(email) =>
          if !EmailPattern(email) then Ret(Verdict(false, EmailInvalid))
          else match PasswordProblem(d["password"])
            case Raise(e) => Raise(e)
            case Ret(Some(m)) => Ret(Verdict(false, m))
            case Ret(None) => Ret(Verdict(true, ""))
  }

  /** `validate_login_data(data)` */
  function ValidateLoginData(data: Option<Body>): (r: Py<Verdict>)
    ensures data.None? || data.value == map[] ==> r == Ret(Verdict(false, NoData))
    ensures r.Ret? && r.value.ok ==>
      data.Some? && "username" in data.value && "password" in data.value && Truthy(data.value["password"])
    ensures r.Raise? <==> data.Some? && data.value != map[] && "username" in data.value && !data.value["username"].Str?
  {
    if data.None? || data.value == map[] then Ret(Verdict(false, NoData))
    else
      var d := data.value;
      match StripValue(GetOr(d, "username", Str("")))
      case Raise(e) => Raise(e)
      case Ret(username) =>
        if username == [] then Ret(Verdict(false, UsernameRequired))
        else if !Truthy(GetOr(d, "password", Str(""))) then Ret(Verdict(false, PasswordRequired))
        else Ret(Verdict(true, ""))
  }

  /** `validate_email(email)` */
  function ValidateEmail(email: string): (b: bool)
    ensures b <==> EmailLanguage(email) || (|email| > 0 && email[|email| - 1] == '\n' && EmailLanguage(email[..|email| - 1]))
  {
    EmailShapeIsLanguage(email);
    if |email| > 0 then EmailShapeIsLanguage(email[..|email| - 1]); EmailPattern(email)
    else EmailPattern(email)
  }

  /** `validate_username(username)`: the raw name, not stripped. */
  function ValidateUsername(username: string): (b: bool)
    ensures b ==> 3 <= |username| <= 50
    ensures b <==> UsernameProblem(username).None?
  {
    if |username| < 3 || |username| > 50 then false
    else UsernamePattern(username)
  }

  /** `validate_password(password)` */
  function ValidatePassword(password: string): (b: bool)
    ensures b ==> 8 <= |password| <= 128
    ensures b <==> PasswordProblem(Str(password)) == Ret(None)
  {
    PerCharacterTests(password);
    if |password| < 8 || |password| > 128 then false
    else if !(exists k :: 0 <= k < |password| && IsAsciiUpper(password[k])) then false
    else if !(exists k :: 0 <= k < |password| && IsAsciiLower(password[k])) then false
    else if !(exists k :: 0 <= k < |password| && IsAsciiDigit(password[k])) then false
    else if !(exists k :: 0 <= k < |password| && password[k] in SpecialChars) then false
    else true
  }

  // ------------------------------------------------------------ properties

  /** An empty or missing body is reported as such, before anything else. */
  lemma RegisterNoData(data: Option<Body>)
    requires data.None? || data.value == map[]
    ensures ValidateRegisterData(data) == Ret(Verdict(false, NoData))
    ensures ValidateLoginData(data) == Ret(Verdict(false, NoData))
  {
  }

  /**
   * The first required field (in the order username, email, full_name,
   * password) that is missing or falsy is the one reported.
   */
  lemma RegisterFirstMissing(d: Body, i: nat)
    requires d != map[] && i < |RequiredFields|
    requires Missing(d, RequiredFields[i])
    requires forall j :: 0 <= j < i ==> !Missing(d, RequiredFields[j])
    ensures ValidateRegisterData(Some(d)) == Ret(Verdict(false, MissingPrefix + RequiredFields[i]))
  {
    var m := First(RequiredFields, f => Missing(d, f));
    assert m == Some(i);
  }

  /** A stripped string does not end in a newline, so `$` matches only at its end. */
  lemma StrippedPatterns(s: string)
    requires Strip(s) == s
    ensures UsernamePattern(s) <==> WordRun(s)
    ensures EmailPattern(s) <==> EmailLanguage(s)
  {
    StripIsSlice(s);
    EmailShapeIsLanguage(s);
  }

  /** `validate_password(p)` holds exactly when the register password rules pass on `p`. */
  lemma ValidatePasswordAgrees(p: string)
    ensures ValidatePassword(p) <==> PasswordProblem(Str(p)) == Ret(None)
  {
    PerCharacterTests(p);
  }

  /** On a string, each `any(...)` test of a one-character string is the character class. */
  lemma PerCharacterTests(p: string)
    ensures AnyItem(Str(p), IsUpperText, AttributeError) == Ret(exists k :: 0 <= k < |p| && IsAsciiUpper(p[k]))
    ensures AnyItem(Str(p), IsLowerText, AttributeError) == Ret(exists k :: 0 <= k < |p| && IsAsciiLower(p[k]))
    ensures AnyItem(Str(p), IsDigitText, AttributeError) == Ret(exists k :: 0 <= k < |p| && IsAsciiDigit(p[k]))
    ensures AnyItem(Str(p), IsSpecialText, TypeError) == Ret(exists k :: 0 <= k < |p| && p[k] in SpecialChars)
  {
    forall k | 0 <= k < |p|
      ensures IsUpperText([p[k]]) <==> IsAsciiUpper(p[k])
      ensures IsLowerText([p[k]]) <==> IsAsciiLower(p[k])
      ensures IsDigitText([p[k]]) <==> IsAsciiDigit(p[k])
      ensures IsSpecialText([p[k]]) <==> p[k] in SpecialChars
    {
      assert [p[k]][0] == p[k];
      SingleCharSpecial(p[k]);
    }
  }

  lemma SingleCharSpecial(c: char)
    ensures IsSpecialText([c]) <==> c in SpecialChars
  {
    if c in SpecialChars {
      var i :| 0 <= i < |SpecialChars| && SpecialChars[i] == c;
      assert OccursAt(SpecialChars, [c], i);
    }
    if IsSpecialText([c]) {
      var i :| 0 <= i <= |SpecialChars| - 1 && OccursAt(SpecialChars, [c], i);
      assert SpecialChars[i..i + 1][0] == SpecialChars[i];
    }
  }

  /** On a name without surrounding whitespace, `validate_username` is the register username rule. */
  lemma ValidateUsernameAgrees(u: string)
    requires Strip(u) == u
    ensures ValidateUsername(u) <==> UsernameProblem(u).None?
  {
  }

  /** `validate_username` accepts a name followed by one newline, which `$` lets through. */
  lemma ValidateUsernameTrailingNewline()
    ensures ValidateUsername("abc\n")
    ensures !WordRun("abc\n")
  {
    assert WordRun("abc\n"[..3]);
  }

  /**
   * Register data is accepted exactly when every required field is present and
   * truthy, the stripped username is 3-50 word characters, the stripped email
   * is in the e-mail language, and the raw password passes its rules.
   */
  lemma RegisterAccepted(data: Option<Body>)
    ensures ValidateRegisterData(data) == Ret(Verdict(true, "")) <==>
      && data.Some?
      && (forall f :: f in RequiredFields ==> f in data.value && Truthy(data.value[f]))
      && data.value["username"].Str? && data.value["email"].Str?
      && 3 <= |Strip(data.value["username"].s)| <= 50
      && WordRun(Strip(data.value["username"].s))
      && EmailLanguage(Strip(data.value["email"].s))
      && PasswordProblem(data.value["password"]) == Ret(None)
  {
    if data.Some? && data.value != map[] {
      var d := data.value;
      var m := First(RequiredFields, f => Missing(d, f));
      if m.Some? {
        assert RequiredFields[m.value] in RequiredFields;
      } else {
        assert forall f :: f in RequiredFields ==> !Missing(d, f);
        assert ValidateRegisterData(data) == FieldRules(d);
        PresentRegisterAccepted(d);
      }
    } else if data.Some? {
      assert "username" !in data.value;
    }
  }

  /** `RegisterAccepted` once every required field is present and truthy. */
  lemma PresentRegisterAccepted(d: Body)
    requires "username" in d && "email" in d && "password" in d
    ensures FieldRules(d) == Ret(Verdict(true, "")) <==>
      && d["username"].Str? && d["email"].Str?
      && 3 <= |Strip(d["username"].s)| <= 50
      && WordRun(Strip(d["username"].s))
      && EmailLanguage(Strip(d["email"].s))
      && PasswordProblem(d["password"]) == Ret(None)
  {
    if d["username"].Str? && d["email"].Str? {
      StripIdempotent(d["username"].s);
      StrippedPatterns(Strip(d["username"].s));
      StripIdempotent(d["email"].s);
      StrippedPatterns(Strip(d["email"].s));
    }
  }

  /**
   * Login data is accepted exactly when the stripped username and the raw
   * password are both non-empty; the username is checked first.
   */
  lemma LoginAccepted(data: Option<Body>)
    ensures ValidateLoginData(data) == Ret(Verdict(true, "")) <==>
      && data.Some?
      && "username" in data.value && data.value["username"].Str?
      && Strip(data.value["username"].s) != []
      && "password" in data.value && Truthy(data.value["password"])
    ensures data.Some? && data.value != map[] && "username" !in data.value ==>
      ValidateLoginData(data) == Ret(Verdict(false, UsernameRequired))
  {
    if data.Some? && data.value != map[] && "username" !in data.value {
      assert Strip("") == "";
    }
  }
}
