/** The two request validators. Each inspects a request body field by field,
    pushes one message per failed field check in a fixed order, and never
    stops at the first failure. */
module Validators {
  import opened JsText
  import opened JsValues
  import opened Email

  const FarmerNameMessage := "farmer_name is required and must be a non-empty string"
  const AmountMessage := "amount is required and must be a positive number"
  const CropMessage := "crop is required and must be a non-empty string"
  const NameMessage := "Name must be at least 2 characters"
  const EmailMessage := "Valid email is required"
  const PasswordMessage := "Password must be at least 6 characters"

  /** The fields of a POST /api/investments body; an absent field is `Undefined`. */
  datatype InvestmentBody = InvestmentBody(farmerName: JsValue, amount: JsValue, crop: JsValue)

  /** The fields of a POST /api/auth/register body. */
  datatype RegistrationBody = RegistrationBody(name: JsValue, email: JsValue, password: JsValue)

  /** What the registration validator does: report its list of errors, or
      throw a TypeError (calling `trim` on a name that is not a string). */
  datatype Validation = Reported(errors: seq<string>) | ThrewTypeError

  // ---------------------------------------------------------------- fields

  /** `!v || typeof v !== 'string' || v.trim() === ''`: a text field is
      rejected unless it is a string with a non-whitespace character. */
  function TextFieldRejected(v: JsValue): (r: bool)
    ensures r <==> !(v.Str? && !AllWhitespace(v.s))
  {
    !Truthy(v) || !v.Str? || (TrimEmpty(v.s); Trim(v.s) == [])
  }

  /** `v === undefined || v === null || isNaN(Number(v)) || Number(v) <= 0`:
      the amount is accepted exactly when it converts to a positive number,
      so the explicit `undefined` and `null` tests add nothing. */
  function AmountRejected(v: JsValue, parse: string -> Numeric): (r: bool)
    ensures r <==> !IsPositive(ToNumber(v, parse))
  {
    v == Undefined || v == Null || ToNumber(v, parse).NaN? || ToNumber(v, parse).value <= 0.0
  }

  /** `name.trim()` is only defined on strings: a truthy name of another type
      makes the validator throw before any error is pushed. */
  predicate NameThrows(v: JsValue) {
    Truthy(v) && !v.Str?
  }

  /** `!v || v.trim().length < 2`, for a name that does not throw; the
      length counts UTF-16 code units. */
  function NameRejected(v: JsValue): (r: bool)
    ensures !NameThrows(v) ==> (r <==> !(v.Str? && Utf16Length(Trim(v.s)) >= 2))
  {
    !Truthy(v) || (v.Str? && Utf16Length(Trim(v.s)) < 2)
  }

  /** `RegExp.prototype.test` converts its argument to a string first. A
      string is tested as it is and an array through its joined text; the
      string forms of numbers, booleans, null, undefined and plain objects
      contain no `@` and never match. */
  predicate EmailTest(v: JsValue) {
    match v
    case Str(s) => IsValidEmail(s)
    case Arr(_, text) => IsValidEmail(text)
    case _ => false
  }

  lemma EmailTestMatches(v: JsValue)
    ensures EmailTest(v) <==> (v.Str? && MatchesEmailRegex(v.s)) || (v.Arr? && MatchesEmailRegex(v.text))
  {
    if v.Str? {
      EmailRegexEquivalence(v.s);
    } else if v.Arr? {
      EmailRegexEquivalence(v.text);
    }
  }

  /** `!v || !EMAIL_PATTERN.test(v)`. */
  predicate EmailRejected(v: JsValue) {
    !Truthy(v) || !EmailTest(v)
  }

  /** The email is rejected unless its string form matches the regular
      expression; only strings and arrays can match. */
  lemma EmailRejectedMeaning(v: JsValue)
    ensures EmailRejected(v) <==> !((v.Str? && MatchesEmailRegex(v.s)) || (v.Arr? && MatchesEmailRegex(v.text)))
  {
    EmailTestMatches(v);
  }

  /** `!v || v.length < 6`, counting a string's UTF-16 code units and an
      array's elements. Only strings and arrays have a `length`; for a
      truthy number, boolean or object it is `undefined`, `undefined < 6` is
      false, and the check lets the value through. */
  function PasswordRejected(v: JsValue): (r: bool)
    ensures !Truthy(v) ==> r
    ensures v.Str? ==> (r <==> Utf16Length(v.s) < 6)
    ensures v.Arr? ==> (r <==> v.length < 6)
    ensures Truthy(v) && !v.Str? && !v.Arr? ==> !r
  {
    !Truthy(v) ||
    match v
    case Str(s) => Utf16Length(s) < 6
    case Arr(n, _) => n < 6
    case _ => false
  }

  // ---------------------------------------------------- error lists

  /** Every message in the list comes strictly later, by `rank`, than the
      ones before it. */
  ghost predicate StrictlyRanked(errs: seq<string>, rank: string -> int) {
    forall i, j :: 0 <= i < j < |errs| ==> rank(errs[i]) < rank(errs[j])
  }

  /** Two strictly ranked lists with the same members are the same list. */
  lemma {:induction false} RankedListsEqual(e1: seq<string>, e2: seq<string>, rank: string -> int)
    requires StrictlyRanked(e1, rank) && StrictlyRanked(e2, rank)
    requires forall m :: m in e1 <==> m in e2
    ensures e1 == e2
  {
    if e1 != [] {
      assert e1[0] in e2;
    }
    if e2 != [] {
      assert e2[0] in e1;
    }
    if e1 != [] && e2 != [] {
      var k :| 0 <= k < |e2| && e2[k] == e1[0];
      var l :| 0 <= l < |e1| && e1[l] == e2[0];
      assert k == 0 || l == 0;
      assert e1[0] == e2[0];
      forall m ensures m in e1[1..] <==> m in e2[1..] {
        if m in e1[1..] {
          var p :| 0 <= p < |e1[1..]| && e1[1..][p] == m;
          assert rank(e1[0]) < rank(e1[p + 1]);
          assert m in e2;
          var q :| 0 <= q < |e2| && e2[q] == m;
          assert q != 0 && e2[1..][q - 1] == m;
        }
        if m in e2[1..] {
          var p :| 0 <= p < |e2[1..]| && e2[1..][p] == m;
          assert rank(e2[0]) < rank(e2[p + 1]);
          assert m in e1;
          var q :| 0 <= q < |e1| && e1[q] == m;
          assert q != 0 && e1[1..][q - 1] == m;
        }
      }
      RankedListsEqual(e1[1..], e2[1..], rank);
    }
  }

  /** The messages of one validator differ from each other (their first
      characters do), which is what makes the ranks below well defined. */
  lemma MessagesDistinct()
    ensures InvestmentRank(FarmerNameMessage) == 0 && InvestmentRank(AmountMessage) == 1
    ensures InvestmentRank(CropMessage) == 2
    ensures RegistrationRank(NameMessage) == 0 && RegistrationRank(EmailMessage) == 1
    ensures RegistrationRank(PasswordMessage) == 2
  {
  }

  function InvestmentRank(m: string): int {
    if m == FarmerNameMessage then 0 else if m == AmountMessage then 1 else 2
  }

  function RegistrationRank(m: string): int {
    if m == NameMessage then 0 else if m == EmailMessage then 1 else 2
  }

  /** `errs` is the answer for an investment body: one message per failed
      field check, each exactly when its check fails, in field order. */
  ghost predicate ListsInvestmentErrors(body: InvestmentBody, parse: string -> Numeric, errs: seq<string>) {
    && (forall m :: m in errs ==> m == FarmerNameMessage || m == AmountMessage || m == CropMessage)
    && (FarmerNameMessage in errs <==> TextFieldRejected(body.farmerName))
    && (AmountMessage in errs <==> AmountRejected(body.amount, parse))
    && (CropMessage in errs <==> TextFieldRejected(body.crop))
    && StrictlyRanked(errs, InvestmentRank)
  }

  /** `errs` is the answer for a registration body whose name does not throw. */
  ghost predicate ListsRegistrationErrors(body: RegistrationBody, errs: seq<string>) {
    && (forall m :: m in errs ==> m == NameMessage || m == EmailMessage || m == PasswordMessage)
    && (NameMessage in errs <==> NameRejected(body.name))
    && (EmailMessage in errs <==> EmailRejected(body.email))
    && (PasswordMessage in errs <==> PasswordRejected(body.password))
    && StrictlyRanked(errs, RegistrationRank)
  }

  /** What `errors.push(m)` adds when a check fails: the message, or nothing. */
  function Pushed(failed: bool, m: string): seq<string> {
    if failed then [m] else []
  }

  /** A list built by pushing, in order, the message of each of three failed
      checks names each message exactly when its check failed, in rank order. */
  lemma ThreeChecksListed(a: bool, b: bool, c: bool, m1: string, m2: string, m3: string,
                          rank: string -> int, errs: seq<string>)
    requires rank(m1) == 0 && rank(m2) == 1 && rank(m3) == 2
    requires errs == Pushed(a, m1) + Pushed(b, m2) + Pushed(c, m3)
    ensures forall m :: m in errs ==> m == m1 || m == m2 || m == m3
    ensures (m1 in errs <==> a) && (m2 in errs <==> b) && (m3 in errs <==> c)
    ensures StrictlyRanked(errs, rank)
    ensures |errs| <= 3 && (errs == [] <==> !a && !b && !c)
  {
  }

  /** The list `validateInvestment` returns. */
  function InvestmentErrors(body: InvestmentBody, parse: string -> Numeric): seq<string> {
    Pushed(TextFieldRejected(body.farmerName), FarmerNameMessage)
    + Pushed(AmountRejected(body.amount, parse), AmountMessage)
    + Pushed(TextFieldRejected(body.crop), CropMessage)
  }

  /** The list `validateRegistration` returns when it does not throw. */
  function RegistrationErrors(body: RegistrationBody): seq<string> {
    Pushed(NameRejected(body.name), NameMessage)
    + Pushed(EmailRejected(body.email), EmailMessage)
    + Pushed(PasswordRejected(body.password), PasswordMessage)
  }

  /** Some field of the investment body fails its check. */
  predicate InvestmentRejected(body: InvestmentBody, parse: string -> Numeric) {
    TextFieldRejected(body.farmerName) || AmountRejected(body.amount, parse) || TextFieldRejected(body.crop)
  }

  /** The registration body passes every check without throwing. */
  predicate RegistrationAccepted(body: RegistrationBody) {
    !NameThrows(body.name) && !NameRejected(body.name) && !EmailRejected(body.email) && !PasswordRejected(body.password)
  }

  /** The investment list names each failed check once, in field order, and
      is empty exactly when the body is accepted. */
  lemma InvestmentErrorsListed(body: InvestmentBody, parse: string -> Numeric)
    ensures ListsInvestmentErrors(body, parse, InvestmentErrors(body, parse))
    ensures |InvestmentErrors(body, parse)| <= 3
    ensures InvestmentErrors(body, parse) == [] <==> !InvestmentRejected(body, parse)
  {
    MessagesDistinct();
    ThreeChecksListed(TextFieldRejected(body.farmerName), AmountRejected(body.amount, parse),
                      TextFieldRejected(body.crop), FarmerNameMessage, AmountMessage, CropMessage,
                      InvestmentRank, InvestmentErrors(body, parse));
  }

  /** The registration list names each failed check once, in field order,
      and for a name that does not throw is empty exactly when the body is
      accepted. */
  lemma RegistrationErrorsListed(body: RegistrationBody)
    ensures ListsRegistrationErrors(body, RegistrationErrors(body))
    ensures |RegistrationErrors(body)| <= 3
    ensures !NameThrows(body.name) ==> (RegistrationErrors(body) == [] <==> RegistrationAccepted(body))
  {
    MessagesDistinct();
    ThreeChecksListed(NameRejected(body.name), EmailRejected(body.email), PasswordRejected(body.password),
                      NameMessage, EmailMessage, PasswordMessage, RegistrationRank, RegistrationErrors(body));
  }

  /** The characterisation leaves exactly one list for an investment body. */
  lemma InvestmentErrorsDetermined(body: InvestmentBody, parse: string -> Numeric, e1: seq<string>, e2: seq<string>)
    requires ListsInvestmentErrors(body, parse, e1) && ListsInvestmentErrors(body, parse, e2)
    ensures e1 == e2
  {
    RankedListsEqual(e1, e2, InvestmentRank);
  }

  /** The characterisation leaves exactly one list for a registration body. */
  lemma RegistrationErrorsDetermined(body: RegistrationBody, e1: seq<string>, e2: seq<string>)
    requires ListsRegistrationErrors(body, e1) && ListsRegistrationErrors(body, e2)
    ensures e1 == e2
  {
    RankedListsEqual(e1, e2, RegistrationRank);
  }

  // ---------------------------------------------------- validators

  /** `validateInvestment`: pushes the farmer_name, amount and crop
      messages, in that order, for the checks that fail. */
  method ValidateInvestment(body: InvestmentBody, parse: string -> Numeric) returns (errors: seq<string>)
    ensures errors == InvestmentErrors(body, parse)
  {
    errors := [];
    if TextFieldRejected(body.farmerName) {
      errors := errors + [FarmerNameMessage];
    }
    assert errors == Pushed(TextFieldRejected(body.farmerName), FarmerNameMessage);
    if AmountRejected(body.amount, parse) {
      errors := errors + [AmountMessage];
    }
    assert errors == Pushed(TextFieldRejected(body.farmerName), FarmerNameMessage)
                     + Pushed(AmountRejected(body.amount, parse), AmountMessage);
    if TextFieldRejected(body.crop) {
      errors := errors + [CropMessage];
    }
  }

  /** `validateRegistration`: throws exactly when the name is truthy but not a
      string; otherwise pushes the name, email and password messages, in that
      order, for the checks that fail. */
  method ValidateRegistration(body: RegistrationBody) returns (v: Validation)
    ensures v.ThrewTypeError? <==> NameThrows(body.name)
    ensures v.Reported? ==> v.errors == RegistrationErrors(body)
  {
    var errors := [];
    if !Truthy(body.name) {
      errors := errors + [NameMessage];
    } else if !body.name.Str? {
      return ThrewTypeError;
    } else if NameRejected(body.name) {
      errors := errors + [NameMessage];
    }
    assert errors == Pushed(NameRejected(body.name), NameMessage);
    if EmailRejected(body.email) {
      errors := errors + [EmailMessage];
    }
    assert errors == Pushed(NameRejected(body.name), NameMessage) + Pushed(EmailRejected(body.email), EmailMessage);
    if PasswordRejected(body.password) {
      errors := errors + [PasswordMessage];
    }
    return Reported(errors);
  }

  /** Password lengths are counted in UTF-16 code units: three characters
      above U+FFFF make a long enough password, while five ASCII characters
      are too short. */
  lemma PasswordLengthEdgeCases()
    ensures !PasswordRejected(Str("\U{1F600}\U{1F600}\U{1F600}"))
    ensures PasswordRejected(Str("abcde"))
  {
    assert Utf16Length("\U{1F600}\U{1F600}\U{1F600}") == 6;
  }

  /** Name lengths are counted in UTF-16 code units after trimming: one
      character above U+FFFF is long enough, " a " is too short. */
  lemma NameLengthEdgeCases()
    ensures !NameRejected(Str("\U{1F600}"))
    ensures NameRejected(Str(" a "))
  {
    assert Trim("\U{1F600}") == "\U{1F600}";
    assert Trim(" a ") == "a";
  }

  /** The edge cases of the amount rule: numeric strings and `true` pass,
      non-numeric strings, negatives, zero, null and a missing field fail. */
  lemma AmountEdgeCases(parse: string -> Numeric)
    requires parse("100") == Finite(100.0) && parse("abc") == NaN
    ensures !AmountRejected(Str("100"), parse) && AmountRejected(Str("abc"), parse)
    ensures AmountRejected(Num(-5.0), parse) && AmountRejected(Num(0.0), parse)
    ensures !AmountRejected(Bool(true), parse)
    ensures AmountRejected(Null, parse) && AmountRejected(Undefined, parse)
  {
  }
}
