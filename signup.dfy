/** The sign-up form's client-side logic: password strength, the per-field
    validators, `runAllValidators` and the submit gate of `handleSignup`. */
module Signup {
  import opened Base
  import opened Decimal
  import opened Schema

  // ---------------------------------------------------------------------------
  // Characters

  /** The characters JavaScript's `\s` matches and `String.prototype.trim`
      removes: WhiteSpace and LineTerminator. */
  predicate IsJsSpace(c: char) {
    var n := c as int;
    || 0x09 <= n <= 0x0D || n == 0x20 || n == 0xA0 || n == 0x1680
    || 0x2000 <= n <= 0x200A || n == 0x2028 || n == 0x2029 || n == 0x202F
    || n == 0x205F || n == 0x3000 || n == 0xFEFF
  }

  predicate IsUpper(c: char) {
    'A' <= c <= 'Z'
  }

  /** The class `[A-Za-z0-9]`. */
  predicate IsAsciiAlphanumeric(c: char) {
    'A' <= c <= 'Z' || 'a' <= c <= 'z' || IsDigit(c)
  }

  /** `String.prototype.trimStart`. */
  function TrimStart(s: string): (r: string)
    ensures |r| <= |s| && r == s[|s| - |r|..]
    ensures forall i :: 0 <= i < |s| - |r| ==> IsJsSpace(s[i])
    ensures r != "" ==> !IsJsSpace(r[0])
  {
    if s != "" && IsJsSpace(s[0]) then TrimStart(s[1..]) else s
  }

  /** `String.prototype.trimEnd`. */
  function TrimEnd(s: string): (r: string)
    ensures |r| <= |s| && r == s[..|r|]
    ensures forall i :: |r| <= i < |s| ==> IsJsSpace(s[i])
    ensures r != "" ==> !IsJsSpace(r[|r| - 1])
  {
    if s != "" && IsJsSpace(s[|s| - 1]) then TrimEnd(s[..|s| - 1]) else s
  }

  /** `String.prototype.trim`. */
  function Trim(s: string): string {
    TrimEnd(TrimStart(s))
  }

  // ---------------------------------------------------------------------------
  // Password strength

  /** `{ score, label }`; `label` is a Dafny keyword, hence `caption`. */
  datatype Strength = Strength(score: nat, caption: string)

  const StrengthLabels: seq<string> := ["Very weak", "Weak", "Fair", "Good", "Strong"]

  /** The four things `passwordStrength` rewards. */
  datatype Criterion = MinLength | Uppercase | Digit | Symbol

  const AllCriteria: set<Criterion> := {MinLength, Uppercase, Digit, Symbol}

  /** `/[A-Z]/.test(s)`. */
  predicate HasUpper(s: string) {
    exists i :: 0 <= i < |s| && IsUpper(s[i])
  }

  /** `/[0-9]/.test(s)`. */
  predicate HasDigit(s: string) {
    exists i :: 0 <= i < |s| && IsDigit(s[i])
  }

  /** `/[^A-Za-z0-9]/.test(s)`. */
  predicate HasSymbol(s: string) {
    exists i :: 0 <= i < |s| && !IsAsciiAlphanumeric(s[i])
  }

  predicate Meets(pwd: string, c: Criterion) {
    match c
    case MinLength => |pwd| >= 8
    case Uppercase => HasUpper(pwd)
    case Digit => HasDigit(pwd)
    case Symbol => HasSymbol(pwd)
  }

  /** The criteria a password satisfies. */
  function CriteriaMet(pwd: string): set<Criterion> {
    set c | c in AllCriteria && Meets(pwd, c)
  }

  function Indicator(b: bool): nat {
    if b then 1 else 0
  }

  /** The criteria met, one singleton (or nothing) per criterion. */
  lemma CriteriaMetSplit(pwd: string)
    ensures CriteriaMet(pwd) ==
              (if |pwd| >= 8 then {MinLength} else {}) + (if HasUpper(pwd) then {Uppercase} else {})
              + (if HasDigit(pwd) then {Digit} else {}) + (if HasSymbol(pwd) then {Symbol} else {})
  {
  }

  /** Counting the criteria one by one gives the size of the set they form. */
  lemma CountCriteria(pwd: string)
    ensures |CriteriaMet(pwd)| ==
              Indicator(|pwd| >= 8) + Indicator(HasUpper(pwd)) + Indicator(HasDigit(pwd)) + Indicator(HasSymbol(pwd))
  {
    var a: set<Criterion> := if |pwd| >= 8 then {MinLength} else {};
    var b: set<Criterion> := if HasUpper(pwd) then {Uppercase} else {};
    var c: set<Criterion> := if HasDigit(pwd) then {Digit} else {};
    var d: set<Criterion> := if HasSymbol(pwd) then {Symbol} else {};
    CriteriaMetSplit(pwd);
    assert a !! b && (a + b) !! c && (a + b + c) !! d;
    assert |a + b| == |a| + |b|;
    assert |a + b + c| == |a + b| + |c|;
  }

  /** `passwordStrength(pwd)`. */
  function PasswordStrength(pwd: string): (r: Strength)
    ensures pwd == "" ==> r == Strength(0, "Too short")
    ensures pwd != "" ==> r.score == |CriteriaMet(pwd)| && r.score <= 4 && r.caption == StrengthLabels[r.score]
  {
    if pwd == "" then Strength(0, "Too short")
    else
      var score := Indicator(|pwd| >= 8) + Indicator(HasUpper(pwd)) + Indicator(HasDigit(pwd)) + Indicator(HasSymbol(pwd));
      CountCriteria(pwd);
      Strength(score, StrengthLabels[score])
  }

  const ProgressVariants: seq<string> := ["danger", "danger", "warning", "info", "success"]

  /** The strength bar's colour, `variants[Math.min(4, score)]`. */
  function ProgressVariant(pwd: string): (v: string)
    ensures v in ProgressVariants
    ensures v == "success" <==> PasswordStrength(pwd).score == 4
    ensures v == "danger" <==> PasswordStrength(pwd).score <= 1
  {
    var score := PasswordStrength(pwd).score;
    ProgressVariants[if score < 4 then score else 4]
  }

  /** The length rule of the validator and the strength meter are independent:
      six lower-case letters pass the validator and still score "Very weak". */
  lemma AcceptedYetVeryWeak()
    ensures PasswordMessage("aaaaaa") == "" && PasswordStrength("aaaaaa") == Strength(0, "Very weak")
  {
    var p := "aaaaaa";
    assert !HasUpper(p) && !HasDigit(p) && !HasSymbol(p) by {
      forall i | 0 <= i < |p| ensures p[i] == 'a' { }
    }
  }

  // ---------------------------------------------------------------------------
  // Numbers

  /** The result of JavaScript's `Number(v)`. */
  datatype JsNumber = NaN | PositiveInfinity | NegativeInfinity | Finite(value: real)

  /** `Number.isInteger(n)`. */
  predicate IsInteger(n: JsNumber) {
    n.Finite? && IsWhole(n.value)
  }

  /** `n <= 0` (false for NaN). */
  predicate AtMostZero(n: JsNumber) {
    n.NegativeInfinity? || (n.Finite? && n.value <= 0.0)
  }

  /** `n > bound` (false for NaN). */
  predicate Exceeds(n: JsNumber, bound: real) {
    n.PositiveInfinity? || (n.Finite? && n.value > bound)
  }

  // ---------------------------------------------------------------------------
  // The validators: each returns a message, or "" for a valid value

  const GenderOptions: seq<string> := ["male", "female", "other", "prefer_not_say"]

  function UsernameMessage(v: string): string {
    if v == "" || |Trim(v)| < 3 then "Username must be at least 3 characters." else ""
  }

  function PasswordMessage(v: string): string {
    if v == "" || |v| < 6 then "Password must be at least 6 characters." else ""
  }

  function ConfirmPasswordMessage(v: string, password: string): string {
    if v != password then "Passwords do not match." else ""
  }

  /** `/^\S+@\S+\.\S+$/.test(v)`: no white space at all, and an `@` and a
      later `.` with at least one character before, between and after them. */
  predicate MatchesEmailPattern(v: string) {
    && (forall k :: 0 <= k < |v| ==> !IsJsSpace(v[k]))
    && exists i, j :: 1 <= i && i + 2 <= j && j + 2 <= |v| && v[i] == '@' && v[j] == '.'
  }

  function EmailMessage(v: string): string {
    if v == "" || !MatchesEmailPattern(v) then "Enter a valid email address." else ""
  }

  /** `/^\d{7,15}$/.test(v)`. */
  predicate MatchesContactPattern(v: string) {
    7 <= |v| <= 15 && AllDigits(v)
  }

  function ContactMessage(v: string): string {
    if v == "" || !MatchesContactPattern(v) then "Contact must be 7-15 digits." else ""
  }

  /** `n` is `Number(v)`. */
  function AgeMessage(v: string, n: JsNumber): string {
    if v == "" || !IsInteger(n) || AtMostZero(n) || Exceeds(n, 120.0) then "Enter a valid age (1-120)." else ""
  }

  function GenderMessage(v: string): string {
    if v !in GenderOptions then "Select a gender option." else ""
  }

  /** `n` is `Number(v)`. */
  function HeightMessage(v: string, n: JsNumber): string {
    if v == "" || n.NaN? || AtMostZero(n) || Exceeds(n, 300.0) then "Enter height in cm." else ""
  }

  /** `n` is `Number(v)`. */
  function WeightMessage(v: string, n: JsNumber): string {
    if v == "" || n.NaN? || AtMostZero(n) || Exceeds(n, 500.0) then "Enter weight in kg." else ""
  }

  // ---------------------------------------------------------------------------
  // The form

  datatype Field = Username | Password | ConfirmPassword | Email | Contact | Age | Gender | Height | Weight

  /** `Object.keys(validators)`, in declaration order. */
  const ValidatorKeys: seq<Field> := [Username, Password, ConfirmPassword, Email, Contact, Age, Gender, Height, Weight]

  datatype Form = Form(
    username: string, password: string, confirmPassword: string, email: string, contact: string,
    age: string, gender: string, height: string, weight: string)

  /** `validators[key](formData[key], formData)`; `toNumber` is JavaScript's `Number`. */
  function Message(key: Field, form: Form, toNumber: string -> JsNumber): string {
    match key
    case Username => UsernameMessage(form.username)
    case Password => PasswordMessage(form.password)
    case ConfirmPassword => ConfirmPasswordMessage(form.confirmPassword, form.password)
    case Email => EmailMessage(form.email)
    case Contact => ContactMessage(form.contact)
    case Age => AgeMessage(form.age, toNumber(form.age))
    case Gender => GenderMessage(form.gender)
    case Height => HeightMessage(form.height, toNumber(form.height))
    case Weight => WeightMessage(form.weight, toNumber(form.weight))
  }

  /** `runAllValidators()`: an entry for exactly the fields whose validator complains. */
  method RunAllValidators(form: Form, toNumber: string -> JsNumber) returns (errors: map<Field, string>)
    ensures forall key :: key in errors <==> Message(key, form, toNumber) != ""
    ensures forall key :: key in errors ==> errors[key] == Message(key, form, toNumber)
  {
    errors := map[];
    var i := 0;
    while i < |ValidatorKeys|
      invariant 0 <= i <= |ValidatorKeys|
      invariant forall key :: key in errors <==> key in ValidatorKeys[..i] && Message(key, form, toNumber) != ""
      invariant forall key :: key in errors ==> errors[key] == Message(key, form, toNumber)
    {
      var key := ValidatorKeys[i];
      var msg := Message(key, form, toNumber);
      if msg != "" {
        errors := errors[key := msg];
      }
      assert ValidatorKeys[..i + 1] == ValidatorKeys[..i] + [key];
      i := i + 1;
    }
    assert ValidatorKeys[..i] == ValidatorKeys;
    forall key: Field ensures key in ValidatorKeys {
      match key
      case Username => assert ValidatorKeys[0] == key;
      case Password => assert ValidatorKeys[1] == key;
      case ConfirmPassword => assert ValidatorKeys[2] == key;
      case Email => assert ValidatorKeys[3] == key;
      case Contact => assert ValidatorKeys[4] == key;
      case Age => assert ValidatorKeys[5] == key;
      case Gender => assert ValidatorKeys[6] == key;
      case Height => assert ValidatorKeys[7] == key;
      case Weight => assert ValidatorKeys[8] == key;
    }
  }

  // ---------------------------------------------------------------------------
  // What a submittable form satisfies

  /** The username has at least three characters from its first to its last
      non-blank character. */
  predicate HasThreeNonBlankSpan(v: string) {
    exists i, j :: 0 <= i && i + 2 <= j < |v| && !IsJsSpace(v[i]) && !IsJsSpace(v[j])
  }

  /** Where the trimmed string sits in `v`: `v[lo..hi]`, with only blanks around it. */
  lemma TrimBounds(v: string) returns (lo: nat, hi: nat)
    ensures lo <= hi <= |v| && Trim(v) == v[lo..hi]
    ensures forall k :: 0 <= k < lo ==> IsJsSpace(v[k])
    ensures forall k :: hi <= k < |v| ==> IsJsSpace(v[k])
    ensures lo < hi ==> !IsJsSpace(v[lo]) && !IsJsSpace(v[hi - 1])
  {
    var ts := TrimStart(v);
    lo := |v| - |ts|;
    hi := lo + |Trim(v)|;
    forall k | hi <= k < |v| ensures IsJsSpace(v[k]) {
      assert v[k] == ts[k - lo];
    }
    if lo < hi {
      assert v[lo] == ts[0] && v[hi - 1] == Trim(v)[hi - 1 - lo];
    }
  }

  /** The username rule, stated without trimming. */
  lemma UsernameRule(v: string)
    ensures UsernameMessage(v) == "" <==> HasThreeNonBlankSpan(v)
  {
    var lo, hi := TrimBounds(v);
    assert |Trim(v)| == hi - lo;
    if hi - lo >= 3 {
      assert !IsJsSpace(v[lo]) && !IsJsSpace(v[hi - 1]);
      assert HasThreeNonBlankSpan(v);
    }
    if HasThreeNonBlankSpan(v) {
      var i, j :| 0 <= i && i + 2 <= j < |v| && !IsJsSpace(v[i]) && !IsJsSpace(v[j]);
      assert lo <= i && j < hi;
    }
  }

  /** Everything the validators accept, stated field by field. */
  predicate RulesHold(form: Form, toNumber: string -> JsNumber) {
    && HasThreeNonBlankSpan(form.username)
    && |form.password| >= 6
    && form.confirmPassword == form.password
    && MatchesEmailPattern(form.email)
    && 7 <= |form.contact| <= 15 && AllDigits(form.contact)
    && form.age != "" && toNumber(form.age).Finite? && IsWhole(toNumber(form.age).value)
    && 1.0 <= toNumber(form.age).value <= 120.0
    && form.gender in GenderOptions
    && form.height != "" && toNumber(form.height).Finite? && 0.0 < toNumber(form.height).value <= 300.0
    && form.weight != "" && toNumber(form.weight).Finite? && 0.0 < toNumber(form.weight).value <= 500.0
  }

  /** The age rule over the parsed number: a whole number from 1 to 120. */
  lemma AgeRule(v: string, n: JsNumber)
    ensures AgeMessage(v, n) == "" <==> v != "" && n.Finite? && IsWhole(n.value) && 1.0 <= n.value <= 120.0
  {
    if n.Finite? && IsWhole(n.value) && n.value > 0.0 {
      assert n.value.Floor >= 1;
    }
  }

  /** The nine validators, named one by one. */
  lemma AllSilentByField(form: Form, toNumber: string -> JsNumber)
    ensures (forall key :: Message(key, form, toNumber) == "") <==>
              && Message(Username, form, toNumber) == "" && Message(Password, form, toNumber) == ""
              && Message(ConfirmPassword, form, toNumber) == "" && Message(Email, form, toNumber) == ""
              && Message(Contact, form, toNumber) == "" && Message(Age, form, toNumber) == ""
              && Message(Gender, form, toNumber) == "" && Message(Height, form, toNumber) == ""
              && Message(Weight, form, toNumber) == ""
  {
    if (forall key :: Message(key, form, toNumber) == "") {
      assert Message(Username, form, toNumber) == "";
      assert Message(Password, form, toNumber) == "";
      assert Message(ConfirmPassword, form, toNumber) == "";
      assert Message(Email, form, toNumber) == "";
      assert Message(Contact, form, toNumber) == "";
      assert Message(Age, form, toNumber) == "";
      assert Message(Gender, form, toNumber) == "";
      assert Message(Height, form, toNumber) == "";
      assert Message(Weight, form, toNumber) == "";
    }
  }

  /** Every validator is silent exactly when the rules above hold. */
  lemma AllSilentIffRulesHold(form: Form, toNumber: string -> JsNumber)
    ensures (forall key :: Message(key, form, toNumber) == "") <==> RulesHold(form, toNumber)
  {
    AllSilentByField(form, toNumber);
    UsernameRule(form.username);
    AgeRule(form.age, toNumber(form.age));
  }

  /** For a plain digit string, `Number` gives its decimal value; the age rule
      then admits exactly 1 to 120. */
  lemma AgeOfDigits(v: string, toNumber: string -> JsNumber)
    requires v != "" && AllDigits(v) && toNumber(v) == Finite(ValueOf(v) as real)
    ensures AgeMessage(v, toNumber(v)) == "" <==> 1 <= ValueOf(v) <= 120
  {
    assert IsWhole(ValueOf(v) as real);
  }

  // ---------------------------------------------------------------------------
  // Reading the auth service's answer

  /** ASCII case folding; the only letters the "success" test looks for. */
  function LowerChar(c: char): char {
    if IsUpper(c) then (c as int + 32) as char else c
  }

  /** `toLowerCase`, on the letters that matter to the test below: no ASCII
      capital is left, and every other character is kept. */
  function Lower(s: string): (r: string)
    ensures |r| == |s|
    ensures forall i :: 0 <= i < |r| ==> !IsUpper(r[i])
    ensures forall i :: 0 <= i < |s| && !IsUpper(s[i]) ==> r[i] == s[i]
    ensures forall i :: 0 <= i < |s| ==> r[i] == LowerChar(s[i])
  {
    seq(|s|, i requires 0 <= i < |s| => LowerChar(s[i]))
  }

  /** `c` is the lower-case letter `l`, or `l` written as a capital. */
  predicate SameLetterAnyCase(c: char, l: char) {
    c == l || ('a' <= l <= 'z' && c as int == l as int - 32)
  }

  /** `p` sits in `s` at index `k`, letter by letter in any ASCII case. */
  predicate OccursAnyCaseAt(s: string, p: string, k: int) {
    0 <= k && k + |p| <= |s| && forall m :: 0 <= m < |p| ==> SameLetterAnyCase(s[k + m], p[m])
  }

  /** Folding one character gives a lower-case `l` exactly when the character is `l` in either case. */
  lemma LowerCharMatches(c: char, l: char)
    requires !IsUpper(l)
    ensures LowerChar(c) == l <==> SameLetterAnyCase(c, l)
  {
  }

  /** Searching the folded text for a lower-case word finds exactly the places
      where the original holds the word in any ASCII case. */
  lemma LowerIncludesAnyCase(s: string, p: string, k: int)
    requires forall m :: 0 <= m < |p| ==> !IsUpper(p[m])
    requires 0 <= k && k + |p| <= |s|
    ensures OccursAt(Lower(s), p, k) <==> OccursAnyCaseAt(s, p, k)
  {
    var low := Lower(s);
    forall m | 0 <= m < |p|
      ensures (low[k..k + |p|][m] == p[m]) <==> SameLetterAnyCase(s[k + m], p[m])
    {
      assert low[k..k + |p|][m] == LowerChar(s[k + m]);
      LowerCharMatches(s[k + m], p[m]);
    }
    if OccursAnyCaseAt(s, p, k) {
      assert low[k..k + |p|] == p;
    }
  }

  /** `p` sits in `s` starting at index `k`. */
  predicate OccursAt(s: string, p: string, k: int) {
    0 <= k && k + |p| <= |s| && s[k..k + |p|] == p
  }

  /** `s.includes(p)`. */
  predicate Includes(s: string, p: string) {
    exists k :: 0 <= k <= |s| && OccursAt(s, p, k)
  }

  /** A string that holds no `c` holds no string containing `c`. */
  lemma IncludesNeedsChar(s: string, p: string, c: char)
    requires c in p
    requires forall i :: 0 <= i < |s| ==> s[i] != c
    ensures !Includes(s, p)
  {
    var m :| 0 <= m < |p| && p[m] == c;
    forall k | 0 <= k <= |s| ensures !OccursAt(s, p, k) {
      if k + |p| <= |s| {
        assert s[k..k + |p|][m] == s[k + m];
      }
    }
  }

  /** The `message` property of a JSON response body: absent, a string, or
      some other JSON value, of which only its truthiness matters. */
  datatype MessageField = NoMessage | TextMessage(text: string) | OtherMessage(truthy: bool)

  /** A response body as axios hands it over: plain text, or a parsed JSON object. */
  datatype Body = Text(text: string) | Object(message: MessageField)

  /** What came back from `axios.post`: a 2xx response body, an error response's
      body, or no response at all; `axiosMessage` is the error's own message. */
  datatype ServerAnswer =
    | Answered(body: Body)
    | Refused(body: Body, axiosMessage: string)
    | Unreachable(axiosMessage: string)

  datatype SignupResult = SignedUp(username: string) | Failed(globalError: string)

  const SignupFallback := "Signup failed. Please try again."
  const NetworkError := "Network error. Please try again."
  /** What the browser's `TypeError` says when `toLowerCase` is called on a
      `message` that is not a string. */
  const NotAFunction := "message.toLowerCase is not a function"

  /** The text a body carries: the body itself when it is a string, otherwise
      its `message` when that is a string. */
  function BodyText(body: Body): Option<string> {
    match body
    case Text(t) => Some(t)
    case Object(TextMessage(m)) => Some(m)
    case Object(_) => None
  }

  /** The rest of `handleSignup` once a request was sent: a 2xx answer whose
      text mentions "success" in any case signs the user up under the form's
      username; every other answer is shown as the global error, and an error
      body that offers no text shows the network-error text. */
  function SignupResponse(form: Form, answer: ServerAnswer): (r: SignupResult)
    ensures r.SignedUp? <==>
              answer.Answered? && BodyText(answer.body).Some? && Includes(Lower(BodyText(answer.body).value), "success")
    ensures r.SignedUp? ==> r.username == form.username
    ensures r.Failed? && answer.Answered? ==>
              r.globalError ==
                if answer.body == Object(OtherMessage(true)) then NotAFunction
                else if BodyText(answer.body).Some? && BodyText(answer.body).value != "" then BodyText(answer.body).value
                else SignupFallback
    ensures answer.Refused? ==>
              r.globalError ==
                if BodyText(answer.body).Some? && BodyText(answer.body).value != "" then BodyText(answer.body).value
                else if answer.body.Text? then answer.axiosMessage
                else NetworkError
    ensures answer.Unreachable? ==> r.globalError == answer.axiosMessage
  {
    match answer
    case Answered(Object(OtherMessage(true))) =>
      // `toLowerCase` throws; the catch sees an error without a response
      Failed(NotAFunction)
    case Answered(body) =>
      var message := BodyText(body).GetOr("");
      if message != "" && Includes(Lower(message), "success") then SignedUp(form.username)
      else Failed(if message == "" then SignupFallback else message)
    case Refused(Text(t), axiosMessage) => Failed(if t == "" then axiosMessage else t)
    case Refused(body, _) =>
      var message := BodyText(body).GetOr("");
      Failed(if message == "" then NetworkError else message)
    case Unreachable(axiosMessage) => Failed(axiosMessage)
  }

  /** Spring Boot's default error reply is a JSON object whose `message` is
      empty or absent: the form shows the network-error text, not the reply. */
  lemma DefaultErrorJsonReadsAsNetworkError(form: Form, axiosMessage: string, message: MessageField)
    requires message == NoMessage || message == TextMessage("")
    ensures SignupResponse(form, Refused(Object(message), axiosMessage)) == Failed(NetworkError)
  {
  }

  /** What `handleSignup` posts to the auth service: numbers through `Number`. */
  datatype Payload = Payload(
    username: string, password: string, email: string, contact: string,
    age: JsNumber, gender: string, height: JsNumber, weight: JsNumber)

  /** The two outcomes of the submit handler before any request is sent. */
  datatype SignupStep =
    | Blocked(fieldErrors: map<Field, string>, globalError: string)
    | Post(payload: Payload)

  /** `handleSignup` up to the HTTP call: it posts only a form every validator accepts. */
  method HandleSignup(form: Form, toNumber: string -> JsNumber) returns (step: SignupStep)
    ensures step.Post? <==> RulesHold(form, toNumber)
    ensures step.Post? ==>
              step.payload == Payload(form.username, form.password, form.email, form.contact,
                                      toNumber(form.age), form.gender, toNumber(form.height), toNumber(form.weight))
    ensures step.Blocked? ==>
              && step.globalError == "Please fix the highlighted fields."
              && (forall key :: key in step.fieldErrors <==> Message(key, form, toNumber) != "")
              && (forall key :: key in step.fieldErrors ==> step.fieldErrors[key] == Message(key, form, toNumber))
  {
    var errors := RunAllValidators(form, toNumber);
    AllSilentIffRulesHold(form, toNumber);
    if errors != map[] {
      return Blocked(errors, "Please fix the highlighted fields.");
    }
    step := Post(Payload(form.username, form.password, form.email, form.contact,
                           toNumber(form.age), form.gender, toNumber(form.height), toNumber(form.weight)));
  }
}
