/** The community-signup edge function: the sign-up rate limit (3 per hour
    per address), the sanitiser and validator of the submitted form, and the
    order in which the handler answers. */
module Signup {
  import opened Text
  import opened Http
  import opened RateLimit

  const SignupPolicy := Policy(3, 3600000)

  /** With the sign-up constants: a new or expired window admits with 2
      attempts left and a reset in 3600 s, and stores a one-hour window; a
      window holding 3 requests denies. */
  lemma SignupWindow(m: Table, ip: string, now: int)
    ensures var r := Decide(SignupPolicy, m, ip, now);
      (ip !in m || m[ip].resetTime < now) ==>
        r.0 == Decision(true, 2, 3600) && r.1[ip] == Record(1, now + 3600000)
    ensures ip in m && now <= m[ip].resetTime && m[ip].count >= 3 ==>
              !Decide(SignupPolicy, m, ip, now).0.allowed
  {
  }

  const MaxNameLength := 100
  const MaxProfessionLength := 100
  const MaxCountryLength := 100
  const MaxCityLength := 100
  const MaxEmailLength := 255
  const MinAge := 16
  const MaxAge := 120
  const MinYears := 0
  const MaxYears := 60

  const ValidGenders: seq<string> := ["male", "female", "non-binary", "prefer-not-to-say"]

  /** The messages validateInput pushes, one constructor each; Message() is
      the text the reply carries. */
  datatype FieldError =
    | ErrBody
    | ErrGender
    | ErrCountryRequired
    | ErrCountryLength
    | ErrCityRequired
    | ErrCityLength
    | ErrEmail
    | ErrEmailLength
    | ErrAge
    | ErrYears
    | ErrName
    | ErrProfession
  {
    function Message(): string {
      match this
      case ErrBody => "Invalid request body"
      case ErrGender => "Invalid gender selection"
      case ErrCountryRequired => "Country is required"
      case ErrCountryLength => "Country must be less than 100 characters"
      case ErrCityRequired => "City is required"
      case ErrCityLength => "City must be less than 100 characters"
      case ErrEmail => "Valid email is required"
      case ErrEmailLength => "Email must be less than 255 characters"
      case ErrAge => "Age must be between 16 and 120"
      case ErrYears => "Years of service must be between 0 and 60"
      case ErrName => "Name must be less than 100 characters"
      case ErrProfession => "Profession must be less than 100 characters"
    }
  }

  /** The messages of a list of errors, in order. */
  function Messages(errors: seq<FieldError>): (r: seq<string>)
    ensures |r| == |errors|
    ensures forall i :: 0 <= i < |r| ==> r[i] == errors[i].Message()
  {
    seq(|errors|, i requires 0 <= i < |errors| => errors[i].Message())
  }

  /** sanitizeString: null and undefined stay null; a string loses its control
      characters and its surrounding white space, as Sanitize states. */
  function SanitizeString(input: Option<string>): (r: Option<string>)
    ensures r.None? <==> input.None?
    ensures r.Some? ==> r.value == Sanitize(input.value)
  {
    match input
    case None => None
    case Some(s) => Some(Sanitize(s))
  }

  lemma SanitizeStringIdempotent(input: Option<string>)
    ensures SanitizeString(SanitizeString(input)) == SanitizeString(input)
  {
    if input.Some? {
      SanitizeIdempotent(input.value);
    }
  }

  predicate EmailChar(c: char) {
    !IsSpace(c) && c != '@'
  }

  /** EMAIL_REGEX, /^[^\s@]+@[^\s@]+\.[^\s@]+$/: a non-empty local part, one
      '@', then a domain with a '.' that has text on both sides, and no white
      space and no other '@' anywhere. */
  predicate MatchesEmail(s: string) {
    exists at, dot ::
      1 <= at && at + 2 <= dot && dot + 2 <= |s| && s[at] == '@' && s[dot] == '.'
      && forall k :: 0 <= k < |s| && k != at ==> EmailChar(s[k])
  }

  /** The pattern on a few addresses: a plain address matches; one without a
      dot after the '@', one with white space, one with a second '@' and one
      with an empty local part do not. */
  lemma EmailExamples()
    ensures MatchesEmail("ana@mail.org")
    ensures !MatchesEmail("ana@mail")
    ensures !MatchesEmail("a na@mail.org")
    ensures !MatchesEmail("a@b@mail.org")
    ensures !MatchesEmail("@mail.org")
  {
    var good := "ana@mail.org";
    assert 1 <= 3 && 3 + 2 <= 8 && 8 + 2 <= |good| && good[3] == '@' && good[8] == '.';
    var spaced := "a na@mail.org";
    forall at: int | 0 <= at < |spaced| && spaced[at] == '@'
      ensures exists k :: 0 <= k < |spaced| && k != at && !EmailChar(spaced[k])
    {
      assert spaced[1] == ' ';
    }
    var twice := "a@b@mail.org";
    forall at: int | 0 <= at < |twice| && twice[at] == '@'
      ensures exists k :: 0 <= k < |twice| && k != at && !EmailChar(twice[k])
    {
      if at == 1 {
        assert twice[3] == '@';
      } else {
        assert twice[1] == '@';
      }
    }
  }

  /** Number.isInteger on a finite number. */
  predicate IsInteger(x: real) {
    x == x.Floor as real
  }

  /** `typeof input[key] === 'string' ? sanitizeString(input[key]) : null` */
  function TextField(input: Json, key: string): Option<string> {
    match Get(input, key)
    case Some(JStr(s)) => SanitizeString(Some(s))
    case _ => None
  }

  /** `typeof input[key] === 'number' ? input[key] : null` */
  function NumberField(input: Json, key: string): Option<real> {
    match Get(input, key)
    case Some(JNum(n)) => Some(n)
    case _ => None
  }

  /** The e-mail field: sanitised, then lower-cased. */
  function EmailField(input: Json): Option<string> {
    match TextField(input, "email")
    case None => None
    case Some(e) => Some(ToLower(e))
  }

  /** The values validateInput reads from an object body: the text fields
      sanitised (the e-mail also lower-cased), the numbers as given; None for
      a field that is absent or of another type. */
  datatype Fields = Fields(
    gender: Option<string>,
    country: Option<string>,
    city: Option<string>,
    email: Option<string>,
    age: Option<real>,
    yearsOfService: Option<real>,
    name: Option<string>,
    profession: Option<string>)

  function Extract(input: Json): Fields {
    Fields(
      TextField(input, "gender"),
      TextField(input, "country"),
      TextField(input, "city"),
      EmailField(input),
      NumberField(input, "age"),
      NumberField(input, "years_of_service"),
      TextField(input, "name"),
      TextField(input, "profession"))
  }

  /** `typeof input.share_story === 'boolean' ? input.share_story : false` */
  function ShareStory(input: Json): bool {
    match Get(input, "share_story")
    case Some(JBool(b)) => b
    case _ => false
  }

  // One check per field, in the order the source pushes its errors.

  function GenderErrors(g: Option<string>): seq<FieldError> {
    if g.None? || g.value == "" || g.value !in ValidGenders then [ErrGender] else []
  }

  function RequiredErrors(v: Option<string>, max: nat, required: FieldError, tooLong: FieldError): seq<FieldError> {
    if v.None? || v.value == "" then [required]
    else if |v.value| > max then [tooLong]
    else []
  }

  function EmailErrors(e: Option<string>): seq<FieldError> {
    if e.None? || e.value == "" || !MatchesEmail(e.value) then [ErrEmail]
    else if |e.value| > MaxEmailLength then [ErrEmailLength]
    else []
  }

  predicate InRange(n: real, lo: int, hi: int) {
    lo as real <= n <= hi as real && IsInteger(n)
  }

  function RangeErrors(n: Option<real>, lo: int, hi: int, message: FieldError): seq<FieldError> {
    if n.Some? && !InRange(n.value, lo, hi) then [message] else []
  }

  function OptionalErrors(v: Option<string>, max: nat, tooLong: FieldError): seq<FieldError> {
    if v.Some? && v.value != "" && |v.value| > max then [tooLong] else []
  }

  /** The errors of the eight checks, one segment per field. */
  function Segments(f: Fields): seq<seq<FieldError>> {
    [ GenderErrors(f.gender),
      RequiredErrors(f.country, MaxCountryLength, ErrCountryRequired, ErrCountryLength),
      RequiredErrors(f.city, MaxCityLength, ErrCityRequired, ErrCityLength),
      EmailErrors(f.email),
      RangeErrors(f.age, MinAge, MaxAge, ErrAge),
      RangeErrors(f.yearsOfService, MinYears, MaxYears, ErrYears),
      OptionalErrors(f.name, MaxNameLength, ErrName),
      OptionalErrors(f.profession, MaxProfessionLength, ErrProfession) ]
  }

  /** The errors of an object body, in push order. */
  function FieldErrors(f: Fields): seq<FieldError> {
    var s := Segments(f);
    s[0] + s[1] + s[2] + s[3] + s[4] + s[5] + s[6] + s[7]
  }

  /** The row handed to the `community_members` insert. */
  datatype Member = Member(
    name: Option<string>,
    gender: string,
    age: Option<int>,
    profession: Option<string>,
    yearsOfService: Option<int>,
    country: string,
    city: string,
    email: string,
    shareStory: bool)

  datatype Validation = Validation(valid: bool, errors: seq<FieldError>, sanitized: Option<Member>)

  /** `value || null` on a sanitised optional string: "" becomes null. */
  function NonEmpty(v: Option<string>): Option<string> {
    if v.Some? && v.value != "" then v else None
  }

  function WholeNumber(n: Option<real>): Option<int> {
    match n
    case None => None
    case Some(x) => Some(x.Floor)
  }

  /** A body has no field errors exactly when each of its segments is empty. */
  lemma {:induction false} NoFieldErrors(f: Fields)
    ensures var s := Segments(f);
      FieldErrors(f) == [] <==>
      s[0] == [] && s[1] == [] && s[2] == [] && s[3] == []
      && s[4] == [] && s[5] == [] && s[6] == [] && s[7] == []
  {
    var s := Segments(f);
    assert |FieldErrors(f)| == |s[0]| + |s[1]| + |s[2]| + |s[3]| + |s[4]| + |s[5]| + |s[6]| + |s[7]|;
  }

  /** The row validateInput builds from fields that passed every check. */
  function BuildMember(f: Fields, shareStory: bool): Member
    requires FieldErrors(f) == []
  {
    NoFieldErrors(f);
    Member(
      NonEmpty(f.name),
      f.gender.value,
      WholeNumber(f.age),
      NonEmpty(f.profession),
      WholeNumber(f.yearsOfService),
      f.country.value,
      f.city.value,
      f.email.value,
      shareStory)
  }

  /** validateInput: a body that is not an object gives exactly one error;
      otherwise every failed field check contributes its message, and a
      sanitised record exists exactly when no check failed. */
  function ValidateInput(data: Json): (v: Validation)
    ensures !IsObject(data) ==> v == Validation(false, [ErrBody], None)
    ensures IsObject(data) ==> v.errors == FieldErrors(Extract(data))
    ensures v.valid <==> v.errors == []
    ensures v.sanitized.Some? <==> v.valid
    ensures v.valid ==> v.sanitized.value.shareStory == ShareStory(data)
    ensures v.valid ==>
              RealOf(v.sanitized.value.age) == Extract(data).age
              && RealOf(v.sanitized.value.yearsOfService) == Extract(data).yearsOfService
  {
    if !IsObject(data) then Validation(false, [ErrBody], None)
    else
      var f := Extract(data);
      var errors := FieldErrors(f);
      if errors != [] then Validation(false, errors, None)
      else
        NoFieldErrors(f);
        WholeNumberInRange(f.age, MinAge, MaxAge, ErrAge);
        WholeNumberInRange(f.yearsOfService, MinYears, MaxYears, ErrYears);
        Validation(true, [], Some(BuildMember(f, ShareStory(data))))
  }

  /** The segment whose check pushes a message; the body error belongs to
      none (slot 8). */
  function Slot(e: FieldError): (j: nat)
    ensures j <= 8
  {
    match e
    case ErrGender => 0
    case ErrCountryRequired => 1
    case ErrCountryLength => 1
    case ErrCityRequired => 2
    case ErrCityLength => 2
    case ErrEmail => 3
    case ErrEmailLength => 3
    case ErrAge => 4
    case ErrYears => 5
    case ErrName => 6
    case ErrProfession => 7
    case ErrBody => 8
  }

  lemma SegmentSlots(f: Fields, j: nat)
    requires j < 8
    ensures forall e :: e in Segments(f)[j] ==> Slot(e) == j
  {
  }

  /** A message is among the field errors exactly when it is in the segment
      of the check that pushes it. */
  lemma {:induction false} ErrorInSegment(f: Fields, e: FieldError)
    ensures e in FieldErrors(f) <==> Slot(e) < 8 && e in Segments(f)[Slot(e)]
  {
    var s := Segments(f);
    forall j | 0 <= j < 8 ensures e in s[j] ==> Slot(e) == j {
      SegmentSlots(f, j);
    }
  }

  /** Each error message appears exactly when its field fails its check,
      in both directions: the gender first. */
  lemma GenderFieldErrors(f: Fields)
    ensures ErrGender in FieldErrors(f) <==> f.gender.None? || f.gender.value !in ValidGenders
  {
    assert "" !in ValidGenders;
    ErrorInSegment(f, ErrGender);
  }

  /** A required text field is in error exactly when it is missing or empty
      after sanitising, or longer than its limit after sanitising (exactly the
      limit is accepted). */
  lemma RequiredSegment(c: Option<string>, max: nat, required: FieldError, tooLong: FieldError)
    requires required != tooLong
    ensures var e := RequiredErrors(c, max, required, tooLong);
      (required in e <==> c.None? || c.value == "")
      && (tooLong in e <==> c.Some? && |c.value| > max)
  {
  }

  /** The country is required, and at most 100 characters long. */
  lemma CountryFieldErrors(f: Fields)
    ensures var e := FieldErrors(f); var c := f.country;
      (ErrCountryRequired in e <==> c.None? || c.value == "")
      && (ErrCountryLength in e <==> c.Some? && |c.value| > MaxCountryLength)
  {
    RequiredSegment(f.country, MaxCountryLength, ErrCountryRequired, ErrCountryLength);
    ErrorInSegment(f, ErrCountryRequired);
    ErrorInSegment(f, ErrCountryLength);
  }

  /** So is the city. */
  lemma CityFieldErrors(f: Fields)
    ensures var e := FieldErrors(f); var c := f.city;
      (ErrCityRequired in e <==> c.None? || c.value == "")
      && (ErrCityLength in e <==> c.Some? && |c.value| > MaxCityLength)
  {
    RequiredSegment(f.city, MaxCityLength, ErrCityRequired, ErrCityLength);
    ErrorInSegment(f, ErrCityRequired);
    ErrorInSegment(f, ErrCityLength);
  }

  /** The e-mail is required, of the regex's shape, and at most 255
      characters long; the shape is checked first. */
  lemma EmailFieldErrors(f: Fields)
    ensures var e := FieldErrors(f); var m := f.email;
      (ErrEmail in e <==> m.None? || !MatchesEmail(m.value))
      && (ErrEmailLength in e <==> m.Some? && MatchesEmail(m.value) && |m.value| > MaxEmailLength)
  {
    ErrorInSegment(f, ErrEmail);
    ErrorInSegment(f, ErrEmailLength);
    if f.email.Some? && f.email.value == "" {
      assert !MatchesEmail(f.email.value);
    }
  }

  /** The optional numbers: one out of range or not whole is an error; an
      absent or mistyped one is not. */
  lemma NumberFieldErrors(f: Fields)
    ensures ErrAge in FieldErrors(f) <==> f.age.Some? && !InRange(f.age.value, MinAge, MaxAge)
    ensures ErrYears in FieldErrors(f) <==>
              f.yearsOfService.Some? && !InRange(f.yearsOfService.value, MinYears, MaxYears)
  {
    ErrorInSegment(f, ErrAge);
    ErrorInSegment(f, ErrYears);
  }

  /** The optional texts: one over its limit is an error; an absent or
      mistyped one is not. */
  lemma OptionalFieldErrors(f: Fields)
    ensures ErrName in FieldErrors(f) <==> f.name.Some? && |f.name.value| > MaxNameLength
    ensures ErrProfession in FieldErrors(f) <==>
              f.profession.Some? && |f.profession.value| > MaxProfessionLength
  {
    ErrorInSegment(f, ErrName);
    ErrorInSegment(f, ErrProfession);
  }

  /** The body error is reported only for a body that is not an object. */
  lemma BodyErrorAlone(data: Json)
    ensures ErrBody in ValidateInput(data).errors <==> !IsObject(data)
  {
    ErrorInSegment(Extract(data), ErrBody);
  }

  /** What a stored row satisfies: every constraint the validator checks. */
  ghost predicate WellFormedMember(m: Member) {
    && m.gender in ValidGenders
    && IsClean(m.country) && 1 <= |m.country| <= MaxCountryLength
    && IsClean(m.city) && 1 <= |m.city| <= MaxCityLength
    && EmailOk(m.email)
    && (m.age.Some? ==> MinAge <= m.age.value <= MaxAge)
    && (m.yearsOfService.Some? ==> MinYears <= m.yearsOfService.value <= MaxYears)
    && (m.name.Some? ==> IsClean(m.name.value) && 1 <= |m.name.value| <= MaxNameLength)
    && (m.profession.Some? ==> IsClean(m.profession.value) && 1 <= |m.profession.value| <= MaxProfessionLength)
  }

  /** A stored address: sanitised, lower-case, of the regex's shape, at most
      255 characters. */
  ghost predicate EmailOk(e: string) {
    IsClean(e) && IsLower(e) && MatchesEmail(e) && |e| <= MaxEmailLength
  }

  /** Fields read from a body are sanitised, and the address lower-cased. */
  ghost predicate CleanFields(f: Fields) {
    && (f.gender.Some? ==> IsClean(f.gender.value))
    && (f.country.Some? ==> IsClean(f.country.value))
    && (f.city.Some? ==> IsClean(f.city.value))
    && (f.email.Some? ==> IsClean(f.email.value) && IsLower(f.email.value))
    && (f.name.Some? ==> IsClean(f.name.value))
    && (f.profession.Some? ==> IsClean(f.profession.value))
  }

  lemma ExtractClean(data: Json)
    ensures CleanFields(Extract(data))
  {
    var t := TextField(data, "email");
    if t.Some? {
      ToLowerKeepsClean(t.value);
      ToLowerIsLower(t.value);
    }
  }

  /** A whole number in range converts to the integer it denotes. */
  lemma WholeNumberInRange(n: Option<real>, lo: int, hi: int, message: FieldError)
    requires RangeErrors(n, lo, hi, message) == []
    ensures var w := WholeNumber(n);
      (w.Some? <==> n.Some?)
      && (w.Some? ==> lo <= w.value <= hi && w.value as real == n.value)
  {
  }

  /** Clean fields that pass every check build a well-formed row, which
      stores the two numbers as they were given. */
  lemma {:induction false} BuildMemberWellFormed(f: Fields, shareStory: bool)
    requires CleanFields(f) && FieldErrors(f) == []
    ensures WellFormedMember(BuildMember(f, shareStory))
    ensures RealOf(BuildMember(f, shareStory).age) == f.age
    ensures RealOf(BuildMember(f, shareStory).yearsOfService) == f.yearsOfService
  {
    NoFieldErrors(f);
    WholeNumberInRange(f.age, MinAge, MaxAge, ErrAge);
    WholeNumberInRange(f.yearsOfService, MinYears, MaxYears, ErrYears);
  }

  /** A valid body yields a well-formed row whose fields are the sanitised
      inputs; share_story is true only when the body says `true`. */
  lemma {:induction false} ValidMemberWellFormed(data: Json)
    requires ValidateInput(data).valid
    ensures var m := ValidateInput(data).sanitized.value; var f := Extract(data);
      && WellFormedMember(m)
      && Some(m.gender) == f.gender && Some(m.country) == f.country
      && Some(m.city) == f.city && Some(m.email) == f.email
      && m.name == NonEmpty(f.name) && m.profession == NonEmpty(f.profession)
      && RealOf(m.age) == f.age && RealOf(m.yearsOfService) == f.yearsOfService
      && (m.shareStory <==> Get(data, "share_story") == Some(JBool(true)))
  {
    var f := Extract(data);
    assert IsObject(data);
    assert ValidateInput(data).sanitized.value == BuildMember(f, ShareStory(data));
    ExtractClean(data);
    NoFieldErrors(f);
    BuildMemberWellFormed(f, ShareStory(data));
  }

  function OptText(v: Option<string>): Json {
    if v.Some? then JStr(v.value) else JNull
  }

  function OptNumber(v: Option<int>): Json {
    if v.Some? then JNum(v.value as real) else JNull
  }

  /** A stored row written back as a request body. */
  function MemberJson(m: Member): Json {
    JObj(map[
      "name" := OptText(m.name),
      "gender" := JStr(m.gender),
      "age" := OptNumber(m.age),
      "profession" := OptText(m.profession),
      "years_of_service" := OptNumber(m.yearsOfService),
      "country" := JStr(m.country),
      "city" := JStr(m.city),
      "email" := JStr(m.email),
      "share_story" := JBool(m.shareStory)])
  }

  /** The numbers as the body carries them. */
  function RealOf(v: Option<int>): Option<real> {
    if v.Some? then Some(v.value as real) else None
  }

  /** The fields a stored row has. */
  function MemberFields(m: Member): Fields {
    Fields(Some(m.gender), Some(m.country), Some(m.city), Some(m.email),
      RealOf(m.age), RealOf(m.yearsOfService), m.name, m.profession)
  }

  lemma CleanTextField(data: Json, key: string, v: Option<string>)
    requires Get(data, key) == Some(OptText(v))
    requires v.Some? ==> IsClean(v.value)
    ensures TextField(data, key) == v
  {
    if v.Some? {
      SanitizeOfClean(v.value);
    }
  }

  lemma MemberJsonGet(m: Member)
    ensures var data := MemberJson(m);
      && Get(data, "name") == Some(OptText(m.name))
      && Get(data, "gender") == Some(OptText(Some(m.gender)))
      && Get(data, "age") == Some(OptNumber(m.age))
      && Get(data, "profession") == Some(OptText(m.profession))
      && Get(data, "years_of_service") == Some(OptNumber(m.yearsOfService))
      && Get(data, "country") == Some(OptText(Some(m.country)))
      && Get(data, "city") == Some(OptText(Some(m.city)))
      && Get(data, "email") == Some(OptText(Some(m.email)))
      && Get(data, "share_story") == Some(JBool(m.shareStory))
  {
  }

  lemma GenderIsClean(g: string)
    requires g in ValidGenders
    ensures IsClean(g)
  {
    assert g == "male" || g == "female" || g == "non-binary" || g == "prefer-not-to-say";
  }

  /** The text fields of a written-back row read back as they were stored. */
  lemma {:induction false} MemberJsonTextFields(m: Member)
    requires IsClean(m.gender) && IsClean(m.country) && IsClean(m.city) && IsClean(m.email)
    requires m.name.Some? ==> IsClean(m.name.value)
    requires m.profession.Some? ==> IsClean(m.profession.value)
    ensures var data := MemberJson(m);
      && TextField(data, "gender") == Some(m.gender)
      && TextField(data, "country") == Some(m.country)
      && TextField(data, "city") == Some(m.city)
      && TextField(data, "email") == Some(m.email)
      && TextField(data, "name") == m.name
      && TextField(data, "profession") == m.profession
  {
    var data := MemberJson(m);
    MemberJsonGet(m);
    CleanTextField(data, "gender", Some(m.gender));
    CleanTextField(data, "country", Some(m.country));
    CleanTextField(data, "city", Some(m.city));
    CleanTextField(data, "email", Some(m.email));
    CleanTextField(data, "name", m.name);
    CleanTextField(data, "profession", m.profession);
  }

  /** A stored address reads back unchanged through the e-mail field. */
  lemma MemberJsonEmail(m: Member)
    requires IsClean(m.email) && IsLower(m.email)
    ensures EmailField(MemberJson(m)) == Some(m.email)
  {
    MemberJsonGet(m);
    CleanTextField(MemberJson(m), "email", Some(m.email));
    ToLowerIsLower(m.email);
  }

  lemma MemberJsonNumbers(m: Member)
    ensures NumberField(MemberJson(m), "age") == RealOf(m.age)
    ensures NumberField(MemberJson(m), "years_of_service") == RealOf(m.yearsOfService)
    ensures ShareStory(MemberJson(m)) == m.shareStory
  {
    MemberJsonGet(m);
  }

  /** A well-formed row written back as a body reads back as its own fields. */
  lemma {:induction false} MemberJsonFields(m: Member)
    requires WellFormedMember(m)
    ensures Extract(MemberJson(m)) == MemberFields(m)
    ensures ShareStory(MemberJson(m)) == m.shareStory
  {
    GenderIsClean(m.gender);
    MemberJsonTextFields(m);
    MemberJsonEmail(m);
    MemberJsonNumbers(m);
  }

  /** A well-formed row fails none of the checks, and is rebuilt from its
      own fields. */
  lemma {:induction false} MemberFieldsPass(m: Member)
    requires WellFormedMember(m)
    ensures FieldErrors(MemberFields(m)) == []
    ensures BuildMember(MemberFields(m), m.shareStory) == m
  {
    NoFieldErrors(MemberFields(m));
  }

  /** Validation is a fixed point on what it accepts: a well-formed row, sent
      again as a body, is accepted unchanged. */
  lemma {:induction false} RevalidateMember(m: Member)
    requires WellFormedMember(m)
    ensures ValidateInput(MemberJson(m)) == Validation(true, [], Some(m))
  {
    MemberJsonFields(m);
    MemberFieldsPass(m);
  }

  /** Result of the database insert, which the model does not perform. */
  datatype InsertOutcome = Inserted | InsertFailed(message: string, code: string)

  /** A unique-constraint violation: the message mentions "duplicate" or the
      error code is 23505. */
  predicate IsDuplicate(o: InsertOutcome) {
    o.InsertFailed? && (Contains(o.message, "duplicate") || o.code == "23505")
  }

  /** The handler's possible answers. */
  datatype SignupReply =
    | Preflight
    | MethodNotAllowed
    | TooManySubmissions(retryAfterSeconds: int)
    | InvalidJson
    | ValidationFailed(details: seq<string>)
    | ConfigurationError
    | AlreadyRegistered
    | JoinFailed
    | Welcome(remainingAttempts: int)
  {
    function Status(): nat {
      match this
      case Preflight => 200
      case MethodNotAllowed => 405
      case TooManySubmissions(_) => 429
      case InvalidJson => 400
      case ValidationFailed(_) => 400
      case ConfigurationError => 500
      case AlreadyRegistered => 409
      case JoinFailed => 500
      case Welcome(_) => 201
    }
  }

  /** One request to the function. `body` is what req.json() gave (None when
      it threw), `configured` whether both Supabase variables are set, and
      `insert` what the database would answer; `inserted` is the row handed to
      the insert, if the handler got that far. */
  method HandleSignup(limiter: Limiter, httpMethod: string, headers: Headers, now: int,
                      body: Option<Json>, configured: bool, insert: InsertOutcome)
    returns (reply: SignupReply, inserted: Option<Member>)
    requires limiter.Valid() && limiter.policy == SignupPolicy
    modifies limiter
    ensures limiter.Valid()
    ensures httpMethod == "OPTIONS" <==> reply == Preflight
    ensures reply == MethodNotAllowed <==> httpMethod != "OPTIONS" && httpMethod != "POST"
    ensures httpMethod != "POST" ==> unchanged(limiter) && inserted.None?
    ensures httpMethod == "POST" ==>
              limiter.records == Decide(SignupPolicy, old(limiter.records), ClientIp(headers), now).1
    ensures reply.TooManySubmissions? <==>
              httpMethod == "POST" && !Decide(SignupPolicy, old(limiter.records), ClientIp(headers), now).0.allowed
    ensures reply.TooManySubmissions? ==>
              reply.retryAfterSeconds
              == Decide(SignupPolicy, old(limiter.records), ClientIp(headers), now).0.resetInSeconds
    ensures reply.InvalidJson? <==>
              httpMethod == "POST" && Decide(SignupPolicy, old(limiter.records), ClientIp(headers), now).0.allowed
              && body.None?
    ensures reply.ValidationFailed? <==>
              httpMethod == "POST" && Decide(SignupPolicy, old(limiter.records), ClientIp(headers), now).0.allowed
              && body.Some? && !ValidateInput(body.value).valid
    ensures reply.ValidationFailed? ==>
              reply.details == Messages(ValidateInput(body.value).errors) && reply.details != []
    ensures reply.ConfigurationError? <==>
              httpMethod == "POST" && Decide(SignupPolicy, old(limiter.records), ClientIp(headers), now).0.allowed
              && body.Some? && ValidateInput(body.value).valid && !configured
    ensures inserted.Some? <==>
              httpMethod == "POST" && Decide(SignupPolicy, old(limiter.records), ClientIp(headers), now).0.allowed
              && body.Some? && ValidateInput(body.value).valid && configured
    ensures inserted.Some? ==> inserted == ValidateInput(body.value).sanitized
    ensures reply.AlreadyRegistered? <==> inserted.Some? && IsDuplicate(insert)
    ensures reply.JoinFailed? <==> inserted.Some? && insert.InsertFailed? && !IsDuplicate(insert)
    ensures reply.Welcome? <==> inserted.Some? && insert == Inserted
    ensures reply.Welcome? ==>
              reply.remainingAttempts
              == Decide(SignupPolicy, old(limiter.records), ClientIp(headers), now).0.remainingAttempts
  {
    inserted := None;
    if httpMethod == "OPTIONS" {
      return Preflight, None;
    }
    if httpMethod != "POST" {
      return MethodNotAllowed, None;
    }
    var clientIp := ClientIp(headers);
    var rateLimit := limiter.Check(clientIp, now);
    if !rateLimit.allowed {
      return TooManySubmissions(rateLimit.resetInSeconds), None;
    }
    if body.None? {
      return InvalidJson, None;
    }
    var validation := ValidateInput(body.value);
    if !validation.valid {
      return ValidationFailed(Messages(validation.errors)), None;
    }
    if !configured {
      return ConfigurationError, None;
    }
    inserted := validation.sanitized;
    if insert.InsertFailed? {
      if IsDuplicate(insert) {
        return AlreadyRegistered, inserted;
      }
      return JoinFailed, inserted;
    }
    reply := Welcome(rateLimit.remainingAttempts);
  }
}
