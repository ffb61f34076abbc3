/** The user domain model of src/model/user.go: genders, the field validators, the two
    composed request validators, the user record and its client-facing response. */
module UserModel {
  import opened Common
  import opened Text

  // ---------------------------------------------------------------------------
  // Gender

  /** Go's `type Gender string`: any text can be stored, three values are valid. */
  datatype Gender = Gender(name: Bytes)

  const GENDER_UNKNOWN: Gender := Gender("unknown")
  const GENDER_MALE: Gender := Gender("male")
  const GENDER_FEMALE: Gender := Gender("female")

  predicate IsValid(g: Gender) {
    g == GENDER_MALE || g == GENDER_FEMALE || g == GENDER_UNKNOWN
  }

  /** Lower-cases the input and recognises "male" and "female"; everything else,
      the empty string included, becomes "unknown". Go's `strings.ToLower` also lowers
      non-ASCII runes, but no non-ASCII rune lowers to a letter of "male" or "female",
      so lowering ASCII alone gives the same comparisons. */
  function ParseGender(s: Bytes): (g: Gender)
    ensures IsValid(g)
  {
    var lower := ToLowerAscii(s);
    if lower == "male" then GENDER_MALE
    else if lower == "female" then GENDER_FEMALE
    else GENDER_UNKNOWN
  }

  /** Each valid gender's own name parses back to it. */
  lemma ParseGenderOfName(g: Gender)
    requires IsValid(g)
    ensures ParseGender(g.name) == g
  {
    var m := ToLowerAscii(GENDER_MALE.name);
    assert m[0] == 'm' && m[1] == 'a' && m[2] == 'l' && m[3] == 'e';
    var f := ToLowerAscii(GENDER_FEMALE.name);
    assert f[0] == 'f' && f[1] == 'e' && f[2] == 'm' && f[3] == 'a' && f[4] == 'l' && f[5] == 'e';
  }

  /** Parsing a parsed gender's name changes nothing. */
  lemma ParseGenderIdempotent(s: Bytes)
    ensures ParseGender(ParseGender(s).name) == ParseGender(s)
  {
    ParseGenderOfName(ParseGender(s));
  }

  /** Two inputs that differ only in the case of ASCII letters parse alike. */
  lemma ParseGenderIgnoresCase(s: Bytes, t: Bytes)
    requires |s| == |t|
    requires forall i :: 0 <= i < |s| ==> LowerByte(s[i]) == LowerByte(t[i])
    ensures ParseGender(s) == ParseGender(t)
  {
    assert ToLowerAscii(s) == ToLowerAscii(t);
  }

  /** `IsValid` admits exactly the genders `ParseGender` can produce, so the validity
      test behind `validateGender` cannot reject a parsed value. */
  lemma ValidGendersAreParseResults(g: Gender)
    ensures IsValid(g) <==> exists s :: ParseGender(s) == g
  {
    if IsValid(g) {
      ParseGenderOfName(g);
    }
  }

  /** An upper-case spelling parses to the gender it names. */
  lemma ParseGenderUpperExample()
    ensures ParseGender("MALE") == GENDER_MALE
  {
    var m := ToLowerAscii("MALE");
    assert m[0] == 'm' && m[1] == 'a' && m[2] == 'l' && m[3] == 'e';
  }

  /** A capitalised spelling parses to the gender it names. */
  lemma ParseGenderCapitalisedExample()
    ensures ParseGender("Female") == GENDER_FEMALE
  {
    var f := ToLowerAscii("Female");
    assert f[0] == 'f' && f[1] == 'e' && f[2] == 'm' && f[3] == 'a' && f[4] == 'l' && f[5] == 'e';
  }

  // ---------------------------------------------------------------------------
  // Field validators

  const USERNAME_MIN_LENGTH: nat := 3
  const USERNAME_MAX_LENGTH: nat := 50
  const EMAIL_MAX_LENGTH: nat := 100
  const PASSWORD_MIN_LENGTH: nat := 8

  /** The rule a field value breaks; each validator returns the first one it finds. */
  datatype Rule = TooShort | TooLong | BadCharacters | BadFormat | BadGender | TooWeak

  /** A validator's result: Go's `nil` error, or the rule behind the error. */
  datatype Check = Pass | Fail(rule: Rule)

  /** `usernameRegex`, `^[a-zA-Z0-9_-]+$`. */
  predicate MatchesUsername(s: Bytes) {
    s != [] && AllIn(s, UsernameClass)
  }

  /** Length first (too short, then too long), then the character set. */
  function ValidateUsername(u: Bytes): (r: Check)
    ensures r == Fail(TooShort) <==> |u| < USERNAME_MIN_LENGTH
    ensures r == Fail(TooLong) <==> |u| > USERNAME_MAX_LENGTH
    ensures r == Fail(BadCharacters) <==>
      USERNAME_MIN_LENGTH <= |u| <= USERNAME_MAX_LENGTH &&
      exists i :: 0 <= i < |u| && !InClass(u[i], UsernameClass)
    ensures r == Pass <==>
      USERNAME_MIN_LENGTH <= |u| <= USERNAME_MAX_LENGTH &&
      forall i :: 0 <= i < |u| ==> InClass(u[i], UsernameClass)
  {
    if |u| < USERNAME_MIN_LENGTH then Fail(TooShort)
    else if |u| > USERNAME_MAX_LENGTH then Fail(TooLong)
    else if !MatchesUsername(u) then Fail(BadCharacters)
    else Pass
  }

  /** One way of reading `s` as `emailRegex`,
      `^[a-zA-Z0-9._%+-]+@[a-zA-Z0-9.-]+\.[a-zA-Z]{2,}$`: the '@' at `at`, the dot
      before the final letters at `dot`. */
  ghost predicate EmailSplit(s: Bytes, at: int, dot: int) {
    && 0 < at && at + 1 < dot && dot + 2 < |s|
    && s[at] == '@' && s[dot] == '.'
    && AllIn(s[..at], LocalPartClass)
    && AllIn(s[at + 1..dot], DomainClass)
    && AllIn(s[dot + 1..], LetterClass)
  }

  /** `s` is in the language of `emailRegex` (Go's `$` matches only at the end of the text). */
  ghost predicate EmailPattern(s: Bytes) {
    exists at, dot :: EmailSplit(s, at, dot)
  }

  /** A direct matcher for `emailRegex`: the first '@' must be preceded by a non-empty
      local part; after it comes the domain, whose last '.' must be preceded by at least
      one byte and followed by at least two letters. */
  predicate MatchesEmail(s: Bytes) {
    match IndexOf(s, '@')
    case None => false
    case Some(at) =>
      var domain := s[at + 1..];
      && at > 0
      && AllIn(s[..at], LocalPartClass)
      && AllIn(domain, DomainClass)
      && match LastIndexOf(domain, '.')
         case None => false
         case Some(dot) => dot > 0 && |domain| - dot > 2 && AllIn(domain[dot + 1..], LetterClass)
  }

  /** The matcher accepts exactly the language of the pattern. */
  lemma MatchesEmailIsPattern(s: Bytes)
    ensures MatchesEmail(s) <==> EmailPattern(s)
  {
    if MatchesEmail(s) {
      MatchedEmailSplits(s);
    }
    if EmailPattern(s) {
      var at, dot :| EmailSplit(s, at, dot);
      SplitEmailMatches(s, at, dot);
    }
  }

  lemma MatchedEmailSplits(s: Bytes)
    requires MatchesEmail(s)
    ensures EmailPattern(s)
  {
    var at := IndexOf(s, '@').value;
    var domain := s[at + 1..];
    var dot := LastIndexOf(domain, '.').value;
    assert s[at + 1..at + 1 + dot] == domain[..dot];
    assert s[at + 1 + dot + 1..] == domain[dot + 1..];
    assert EmailSplit(s, at, at + 1 + dot);
  }

  lemma SplitEmailMatches(s: Bytes, at: int, dot: int)
    requires EmailSplit(s, at, dot)
    ensures MatchesEmail(s)
  {
    FirstAtSign(s, at, dot);
    DomainBytes(s, at, dot);
    LastDot(s, at, dot);
  }

  /** The local part holds no '@', so the '@' of a split is the first one. */
  lemma FirstAtSign(s: Bytes, at: int, dot: int)
    requires EmailSplit(s, at, dot)
    ensures IndexOf(s, '@') == Some(at)
  {
    var local := s[..at];
    assert '@' !in local by {
      forall i | 0 <= i < at ensures local[i] != '@' {
        assert InClass(local[i], LocalPartClass);
      }
    }
  }

  /** Everything after the '@' is in the domain class: the domain proper, the dot and
      the final letters. */
  lemma DomainBytes(s: Bytes, at: int, dot: int)
    requires EmailSplit(s, at, dot)
    ensures AllIn(s[at + 1..], DomainClass)
  {
    var domain := s[at + 1..];
    var body := s[at + 1..dot];
    var tail := s[dot + 1..];
    forall j | 0 <= j < |domain| ensures InClass(domain[j], DomainClass) {
      if at + 1 + j < dot {
        assert domain[j] == body[j];
      } else if at + 1 + j > dot {
        assert domain[j] == tail[j - (dot - at)];
        assert InClass(tail[j - (dot - at)], LetterClass);
      }
    }
  }

  /** The final letters hold no '.', so the dot of a split is the last one in the domain. */
  lemma LastDot(s: Bytes, at: int, dot: int)
    requires EmailSplit(s, at, dot)
    ensures LastIndexOf(s[at + 1..], '.') == Some(dot - (at + 1))
  {
    var domain := s[at + 1..];
    var d := dot - (at + 1);
    var tail := s[dot + 1..];
    assert domain[d + 1..] == tail;
    assert '.' !in tail by {
      forall j | 0 <= j < |tail| ensures tail[j] != '.' {
        assert InClass(tail[j], LetterClass);
      }
    }
  }

  /** Length first, then the pattern. */
  function ValidateEmail(e: Bytes): (r: Check)
    ensures r == Fail(TooLong) <==> |e| > EMAIL_MAX_LENGTH
    ensures r == Fail(BadFormat) <==> |e| <= EMAIL_MAX_LENGTH && !EmailPattern(e)
    ensures r == Pass <==> |e| <= EMAIL_MAX_LENGTH && EmailPattern(e)
  {
    MatchesEmailIsPattern(e);
    if |e| > EMAIL_MAX_LENGTH then Fail(TooLong)
    else if !MatchesEmail(e) then Fail(BadFormat)
    else Pass
  }

  /** The empty string is accepted (it stands for "unknown"); any other text is parsed,
      and a parsed gender is always valid, so the error branch cannot be taken. */
  function ValidateGender(g: Bytes): (r: Check)
    ensures r == Pass
  {
    if g == [] then Pass
    else if !IsValid(ParseGender(g)) then Fail(BadGender)
    else Pass
  }

  /** Length first, then one ASCII upper-case letter, one lower-case letter and one
      digit; no other character is ever required. */
  function ValidatePassword(p: Bytes): (r: Check)
    ensures r == Fail(TooShort) <==> |p| < PASSWORD_MIN_LENGTH
    ensures r == Pass <==>
      && |p| >= PASSWORD_MIN_LENGTH
      && (exists i :: 0 <= i < |p| && IsUpper(p[i]))
      && (exists i :: 0 <= i < |p| && IsLower(p[i]))
      && (exists i :: 0 <= i < |p| && IsDigit(p[i]))
    ensures r.Fail? ==> r.rule == TooShort || r.rule == TooWeak
  {
    if |p| < PASSWORD_MIN_LENGTH then Fail(TooShort)
    else
      var hasUpper := AnyIn(p, UpperClass);
      var hasLower := AnyIn(p, LowerClass);
      var hasNumber := AnyIn(p, DigitClass);
      if !hasUpper || !hasLower || !hasNumber then Fail(TooWeak) else Pass
  }

  lemma UsernameExamples()
    ensures ValidateUsername("ab") == Fail(TooShort)
    ensures ValidateUsername("bad name") == Fail(BadCharacters)
  {
    var bad: Bytes := "bad name";
    assert !InClass(bad[3], UsernameClass);
  }

  /** No special character is needed. */
  lemma PasswordWithoutSpecialExample()
    ensures ValidatePassword("Passw0rd") == Pass
  {
    var good: Bytes := "Passw0rd";
    assert IsUpper(good[0]) && IsLower(good[1]) && IsDigit(good[5]);
  }

  /** Every text of the email pattern holds an '@'. */
  lemma PatternHasAt(s: Bytes)
    ensures EmailPattern(s) ==> '@' in s
  {
    if EmailPattern(s) {
      var at, dot :| EmailSplit(s, at, dot);
      assert s[at] == '@';
    }
  }

  /** Text without an '@' is never an email address (unless it is too long). */
  lemma EmailWithoutAtRejected(s: Bytes)
    requires '@' !in s && |s| <= EMAIL_MAX_LENGTH
    ensures ValidateEmail(s) == Fail(BadFormat)
  {
    PatternHasAt(s);
  }

  /** "a@..com" is accepted: the pattern does not ask for non-empty domain labels. */
  lemma EmailEmptyLabelsExample()
    ensures ValidateEmail("a@..com") == Pass
  {
    var odd: Bytes := "a@..com";
    assert EmailSplit(odd, 1, 3);
  }

  // ---------------------------------------------------------------------------
  // Requests and the composed validators

  datatype UserCreateRequest = UserCreateRequest(username: Bytes, email: Bytes, gender: Bytes, password: Bytes)

  /** A partial update: `None` is a JSON field that was left out (a nil pointer in Go). */
  datatype UserUpdateRequest = UserUpdateRequest(
    username: Option<Bytes>, email: Option<Bytes>, gender: Option<Bytes>, password: Option<Bytes>)

  datatype Field = UsernameField | EmailField | GenderField | PasswordField

  /** The outcome of a composed validator: valid, or the first field that failed and why. */
  datatype Verdict = Valid | Invalid(field: Field, rule: Rule)

  /** The order in which the composed validators visit the fields. */
  function Position(f: Field): nat {
    match f
    case UsernameField => 0
    case EmailField => 1
    case GenderField => 2
    case PasswordField => 3
  }

  function CheckField(f: Field, value: Bytes): Check {
    match f
    case UsernameField => ValidateUsername(value)
    case EmailField => ValidateEmail(value)
    case GenderField => ValidateGender(value)
    case PasswordField => ValidatePassword(value)
  }

  function CreateCheck(req: UserCreateRequest, f: Field): Check {
    match f
    case UsernameField => ValidateUsername(req.username)
    case EmailField => ValidateEmail(req.email)
    case GenderField => ValidateGender(req.gender)
    case PasswordField => ValidatePassword(req.password)
  }

  /** `UserCreateRequest.Validate`: every field is checked, username, email, gender,
      password, and the first failure is reported. */
  function ValidateCreate(req: UserCreateRequest): (v: Verdict)
    ensures v == Valid <==> forall f :: CreateCheck(req, f) == Pass
    ensures v.Invalid? ==>
      && CreateCheck(req, v.field) == Fail(v.rule)
      && forall f :: Position(f) < Position(v.field) ==> CreateCheck(req, f) == Pass
  {
    var u := CreateCheck(req, UsernameField);
    var e := CreateCheck(req, EmailField);
    var g := CreateCheck(req, GenderField);
    var p := CreateCheck(req, PasswordField);
    match (u, e, g, p)
    case (Fail(rule), _, _, _) => Invalid(UsernameField, rule)
    case (Pass, Fail(rule), _, _) => Invalid(EmailField, rule)
    case (Pass, Pass, Fail(rule), _) => Invalid(GenderField, rule)
    case (Pass, Pass, Pass, Fail(rule)) => Invalid(PasswordField, rule)
    case (Pass, Pass, Pass, Pass) => Valid
  }

  /** Gender never decides the outcome: a create request is valid exactly when its
      username, email and password are. */
  lemma CreateValidIff(req: UserCreateRequest)
    ensures ValidateCreate(req) == Valid <==>
      && ValidateUsername(req.username) == Pass
      && ValidateEmail(req.email) == Pass
      && ValidatePassword(req.password) == Pass
    ensures ValidateCreate(req).Invalid? ==> ValidateCreate(req).field != GenderField
  {
    assert CreateCheck(req, UsernameField) == ValidateUsername(req.username);
    assert CreateCheck(req, EmailField) == ValidateEmail(req.email);
    assert CreateCheck(req, PasswordField) == ValidatePassword(req.password);
  }

  function UpdateValue(req: UserUpdateRequest, f: Field): Option<Bytes> {
    match f
    case UsernameField => req.username
    case EmailField => req.email
    case GenderField => req.gender
    case PasswordField => req.password
  }

  /** A field left out of an update is not checked. */
  function UpdateCheck(req: UserUpdateRequest, f: Field): Check {
    match UpdateValue(req, f)
    case None => Pass
    case Some(value) => CheckField(f, value)
  }

  /** `UserUpdateRequest.Validate`: only the fields present are checked, in the same
      order as for a create request, and the first failure is reported. */
  function ValidateUpdate(req: UserUpdateRequest): (v: Verdict)
    ensures v == Valid <==> forall f :: UpdateCheck(req, f) == Pass
    ensures v.Invalid? ==>
      && UpdateValue(req, v.field).Some?
      && UpdateCheck(req, v.field) == Fail(v.rule)
      && forall f :: Position(f) < Position(v.field) ==> UpdateCheck(req, f) == Pass
  {
    var u := UpdateCheck(req, UsernameField);
    var e := UpdateCheck(req, EmailField);
    var g := UpdateCheck(req, GenderField);
    var p := UpdateCheck(req, PasswordField);
    match (u, e, g, p)
    case (Fail(rule), _, _, _) => Invalid(UsernameField, rule)
    case (Pass, Fail(rule), _, _) => Invalid(EmailField, rule)
    case (Pass, Pass, Fail(rule), _) => Invalid(GenderField, rule)
    case (Pass, Pass, Pass, Fail(rule)) => Invalid(PasswordField, rule)
    case (Pass, Pass, Pass, Pass) => Valid
  }

  lemma EmptyUpdateIsValid()
    ensures ValidateUpdate(UserUpdateRequest(None, None, None, None)) == Valid
  {
  }

  /** An update that supplies every field is judged exactly as a create request with
      the same values. */
  lemma FullUpdateAgreesWithCreate(req: UserCreateRequest)
    ensures ValidateUpdate(UserUpdateRequest(Some(req.username), Some(req.email), Some(req.gender), Some(req.password)))
         == ValidateCreate(req)
  {
    var upd := UserUpdateRequest(Some(req.username), Some(req.email), Some(req.gender), Some(req.password));
    assert UpdateCheck(upd, UsernameField) == CreateCheck(req, UsernameField);
    assert UpdateCheck(upd, EmailField) == CreateCheck(req, EmailField);
    assert UpdateCheck(upd, GenderField) == CreateCheck(req, GenderField);
    assert UpdateCheck(upd, PasswordField) == CreateCheck(req, PasswordField);
  }

  function FieldName(f: Field): string {
    match f
    case UsernameField => "username"
    case EmailField => "email"
    case GenderField => "gender"
    case PasswordField => "password"
  }

  /** The text of a validator's error. */
  function RuleMessage(f: Field, rule: Rule): string {
    match rule
    case TooShort => FieldName(f) + " is too short"
    case TooLong => FieldName(f) + " is too long"
    case BadCharacters => "username can only contain alphanumeric characters, underscores, and hyphens"
    case BadFormat => "invalid email format"
    case BadGender => "gender must be one of: male, female, unknown"
    case TooWeak => "password must contain at least one uppercase letter, one lowercase letter, and one number"
  }

  /** The text of a composed validator's error: the field's prefix wrapped around the rule. */
  function Details(f: Field, rule: Rule): string {
    FieldName(f) + " validation failed: " + RuleMessage(f, rule)
  }

  // ---------------------------------------------------------------------------
  // The user record

  /** A user row as a value. */
  datatype User = User(
    id: int, username: Bytes, email: Bytes, gender: Gender,
    passwordHash: Bytes, createdAt: Time, updatedAt: Time)

  /** What clients see of a user: every field except the password hash. */
  datatype UserResponse = UserResponse(
    id: int, username: Bytes, email: Bytes, gender: Gender, createdAt: Time, updatedAt: Time)

  /** `ToResponse`: the response copies every field of the user; its type has no place
      for the password hash. */
  function ToResponse(u: User): (r: UserResponse)
    ensures r.id == u.id && r.username == u.username && r.email == u.email
    ensures r.gender == u.gender && r.createdAt == u.createdAt && r.updatedAt == u.updatedAt
  {
    UserResponse(u.id, u.username, u.email, u.gender, u.createdAt, u.updatedAt)
  }

  /** The response keeps every field but the hash: two users give the same response
      exactly when they differ at most in their password hash. */
  lemma ResponseDeterminesAllButHash(u: User, v: User)
    ensures ToResponse(u) == ToResponse(v) <==> u.(passwordHash := v.passwordHash) == v
  {
  }

  /** Go's `*model.User`, which the handlers and `BeforeCreate`/`BeforeUpdate` update in place. */
  class UserRecord {
    var id: int
    var username: Bytes
    var email: Bytes
    var gender: Gender
    var passwordHash: Bytes
    var createdAt: Time
    var updatedAt: Time

    function Value(): User
      reads this
    {
      User(id, username, email, gender, passwordHash, createdAt, updatedAt)
    }

    /** A struct literal holding the fields of `u`. */
    constructor (u: User)
      ensures Value() == u
    {
      id, username, email, gender := u.id, u.username, u.email, u.gender;
      passwordHash, createdAt, updatedAt := u.passwordHash, u.createdAt, u.updatedAt;
    }

    /** Both timestamps become `now`; nothing else changes. */
    method BeforeCreate(now: Time)
      modifies this
      ensures Value() == old(Value()).(createdAt := now, updatedAt := now)
    {
      createdAt := now;
      updatedAt := now;
    }

    /** The update timestamp becomes `now`; nothing else changes. */
    method BeforeUpdate(now: Time)
      modifies this
      ensures Value() == old(Value()).(updatedAt := now)
    {
      updatedAt := now;
    }
  }
}
