/**
 * The browser-side contact form handler (`ContactFormHandler` in contact.js): the
 * submission validator, the per-field blur validator with its inline error, and the
 * submit sequence (validate, send, classify the reply, reset the button).
 */
module ContactForm {
  import opened Wrappers
  import opened JsString

  const NameError := "Name must be at least 2 characters long"
  const EmailError := "Please enter a valid email address"
  const SubjectError := "Subject must be at least 5 characters long"
  const MessageError := "Message must be at least 10 characters long"
  const SendFailed := "Failed to send message"

  // ---------------------------------------------------------------------------
  // The e-mail pattern /^[^\s@]+@[^\s@]+\.[^\s@]+$/
  // ---------------------------------------------------------------------------

  /** A run matched by `[^\s@]+`: non-empty, no whitespace and no `@`. */
  ghost predicate Segment(t: string) {
    |t| > 0 && forall i | 0 <= i < |t| :: !IsWhitespace(t[i]) && t[i] != '@'
  }

  /** What the regular expression accepts: three such runs joined by `@` and `.`,
      for some choice of the `@` and the `.` (the regex backtracks over the dots). */
  ghost predicate MatchesEmailRegex(s: string) {
    exists at, dot :: SplitsAt(s, at, dot)
  }

  /** The shape the regular expression matches, with the `@` at `at` and the `.` at `dot`. */
  ghost predicate SplitsAt(s: string, at: int, dot: int) {
    0 <= at < dot < |s| && s[at] == '@' && s[dot] == '.'
    && Segment(s[..at]) && Segment(s[at + 1..dot]) && Segment(s[dot + 1..])
  }

  /** Index of the first `c` in `s`, or -1. */
  function IndexOf(s: string, c: char): (r: int)
    ensures -1 <= r < |s|
    ensures r >= 0 ==> s[r] == c && c !in s[..r]
    ensures r == -1 ==> c !in s
  {
    if |s| == 0 then -1
    else if s[0] == c then 0
    else
      var k := IndexOf(s[1..], c);
      if k < 0 then
        assert s == [s[0]] + s[1..];
        -1
      else
        assert s[..k + 1] == [s[0]] + s[1..][..k];
        k + 1
  }

  /** A `.` somewhere in `d` other than its first and last character. */
  predicate HasInnerDot(d: string) {
    |d| >= 3 && '.' in d[1..|d| - 1]
  }

  /** `emailRegex.test(s)`, computed: no whitespace, exactly one `@` with something
      before it, and a dot inside the part after it. */
  predicate IsEmail(s: string) {
    var at := IndexOf(s, '@');
    NoWhitespace(s) && at > 0 && '@' !in s[at + 1..] && HasInnerDot(s[at + 1..])
  }

  /** Every string the computed test accepts matches the regular expression. */
  lemma {:induction false} IsEmailImpliesRegex(s: string)
    requires IsEmail(s)
    ensures MatchesEmailRegex(s)
  {
    var at := IndexOf(s, '@');
    var d := s[at + 1..];
    var inner := d[1..|d| - 1];
    var m :| 0 <= m < |inner| && inner[m] == '.';
    var k := m + 1;
    assert d[k] == '.';
    var dot := at + 1 + k;
    assert s[dot] == '.';
    assert Segment(s[..at]) by {
      forall i | 0 <= i < at ensures !IsWhitespace(s[..at][i]) && s[..at][i] != '@' {
        assert s[..at][i] == s[i];
        assert s[..at][i] in s[..at];
      }
    }
    forall i | 0 <= i < |d| ensures !IsWhitespace(d[i]) && d[i] != '@' {
      assert d[i] == s[at + 1 + i];
      assert d[i] in d;
    }
    assert Segment(s[at + 1..dot]) by {
      assert s[at + 1..dot] == d[..k];
    }
    assert Segment(s[dot + 1..]) by {
      assert s[dot + 1..] == d[k + 1..];
    }
    assert SplitsAt(s, at, dot);
  }

  lemma SplitHasNoWhitespace(s: string, at: int, dot: int)
    requires SplitsAt(s, at, dot)
    ensures NoWhitespace(s)
    ensures forall i | 0 <= i < |s| && i != at :: s[i] != '@'
  {
    forall i | 0 <= i < |s| ensures !IsWhitespace(s[i]) && (i != at ==> s[i] != '@') {
      if i < at { assert s[..at][i] == s[i]; }
      else if at < i < dot { assert s[at + 1..dot][i - at - 1] == s[i]; }
      else if dot < i { assert s[dot + 1..][i - dot - 1] == s[i]; }
    }
  }

  /** Every string the regular expression matches passes the computed test. */
  lemma {:induction false} RegexImpliesIsEmail(s: string)
    requires MatchesEmailRegex(s)
    ensures IsEmail(s)
  {
    var at, dot :| SplitsAt(s, at, dot);
    SplitHasNoWhitespace(s, at, dot);
    var found := IndexOf(s, '@');
    assert found == at;
    var d := s[at + 1..];
    assert '@' !in d by {
      forall i | 0 <= i < |d| ensures d[i] != '@' { assert d[i] == s[at + 1 + i]; }
    }
    var k := dot - at - 1;
    assert d[1..|d| - 1][k - 1] == '.';
  }

  /** The computed test agrees with the regular expression on every string. */
  lemma IsEmailMatchesRegex(s: string)
    ensures IsEmail(s) <==> MatchesEmailRegex(s)
  {
    if IsEmail(s) { IsEmailImpliesRegex(s); }
    if MatchesEmailRegex(s) { RegexImpliesIsEmail(s); }
  }

  /** The submit check on an e-mail value is the regular expression. */
  lemma EmailRuleMatchesRegex(v: Option<string>)
    ensures EmailRule(v) <==> v.Some? && MatchesEmailRegex(v.value)
  {
    if v.Some? { IsEmailMatchesRegex(v.value); }
  }

  // ---------------------------------------------------------------------------
  // validateData
  // ---------------------------------------------------------------------------

  /** The values `handleSubmit` collects; `None` is what `FormData.get` returns for
      a field the form does not have. */
  datatype FormData = FormData(
    name: Option<string>,
    email: Option<string>,
    subject: Option<string>,
    message: Option<string>,
    timestamp: string)

  /** JavaScript truthiness of a form value: `null` and `''` are falsy. */
  predicate Truthy(v: Option<string>) {
    v.Some? && v.value != ""
  }

  /** `!v || v.trim().length < min` fails; this is its negation. `length` counts UTF-16
      code units. */
  predicate LengthRule(v: Option<string>, min: nat) {
    Truthy(v) && Utf16Length(Trim(v.value)) >= min
  }

  /** `!v || !emailRegex.test(v)` fails; this is its negation (the value is not trimmed). */
  predicate EmailRule(v: Option<string>) {
    Truthy(v) && IsEmail(v.value)
  }

  datatype Validation = Valid | Invalid(message: string)

  /** One rule of a validator: whether it passes, and the message it reports if not. */
  datatype Check = Check(passes: bool, message: string)

  /** Reference semantics of an ordered validator: the message of the first failing
      check, or `Valid` when they all pass. */
  function FirstFailure(checks: seq<Check>): (r: Validation)
    ensures r == Valid <==> forall k | 0 <= k < |checks| :: checks[k].passes
    ensures r.Invalid? ==>
      exists k | 0 <= k < |checks| ::
        !checks[k].passes && checks[k].message == r.message
        && forall j | 0 <= j < k :: checks[j].passes
  {
    if |checks| == 0 then Valid
    else if !checks[0].passes then Invalid(checks[0].message)
    else
      var r := FirstFailure(checks[1..]);
      assert forall k | 1 <= k < |checks| :: checks[k] == checks[1..][k - 1];
      if r.Invalid? then
        var k :| 0 <= k < |checks[1..]| && !checks[1..][k].passes && checks[1..][k].message == r.message
          && forall j | 0 <= j < k :: checks[1..][j].passes;
        assert forall j | 0 <= j < k + 1 :: checks[j].passes by {
          forall j | 0 <= j < k + 1 ensures checks[j].passes {
            if j > 0 { assert checks[j] == checks[1..][j - 1]; }
          }
        }
        r
      else r
  }

  /** The four rules of `validateData`, in the order it applies them. */
  function Rules(d: FormData): seq<Check> {
    [ Check(LengthRule(d.name, 2), NameError),
      Check(EmailRule(d.email), EmailError),
      Check(LengthRule(d.subject, 5), SubjectError),
      Check(LengthRule(d.message, 10), MessageError) ]
  }

  /** `validateData(data)`: the four rules in order; the first that fails decides the
      message. */
  function ValidateData(d: FormData): (r: Validation)
    ensures r.Invalid? ==> r.message in {NameError, EmailError, SubjectError, MessageError}
  {
    if !LengthRule(d.name, 2) then Invalid(NameError)
    else if !EmailRule(d.email) then Invalid(EmailError)
    else if !LengthRule(d.subject, 5) then Invalid(SubjectError)
    else if !LengthRule(d.message, 10) then Invalid(MessageError)
    else Valid
  }

  /** `validateData` is the ordered first-failure validator over its four rules. */
  lemma ValidateDataIsFirstFailure(d: FormData)
    ensures ValidateData(d) == FirstFailure(Rules(d))
  {
    var rules := Rules(d);
    assert FirstFailure(rules[3..]) == if rules[3].passes then Valid else Invalid(MessageError);
    assert FirstFailure(rules[2..]) == if rules[2].passes then FirstFailure(rules[3..]) else Invalid(SubjectError);
    assert FirstFailure(rules[1..]) == if rules[1].passes then FirstFailure(rules[2..]) else Invalid(EmailError);
  }

  /** The data is valid exactly when the trimmed name is at least 2 UTF-16 code units
      long, the untrimmed e-mail matches the regular expression, the trimmed subject is
      at least 5 long and the trimmed message at least 10. */
  lemma ValidateDataIff(d: FormData)
    ensures ValidateData(d) == Valid <==>
      && d.name.Some? && Utf16Length(Trim(d.name.value)) >= 2
      && d.email.Some? && MatchesEmailRegex(d.email.value)
      && d.subject.Some? && Utf16Length(Trim(d.subject.value)) >= 5
      && d.message.Some? && Utf16Length(Trim(d.message.value)) >= 10
  {
    EmailRuleMatchesRegex(d.email);
    assert LengthRule(d.name, 2) <==> d.name.Some? && Utf16Length(Trim(d.name.value)) >= 2;
    assert LengthRule(d.subject, 5) <==> d.subject.Some? && Utf16Length(Trim(d.subject.value)) >= 5;
    assert LengthRule(d.message, 10) <==> d.message.Some? && Utf16Length(Trim(d.message.value)) >= 10;
  }

  /** Once a rule fails, the fields checked after it cannot change the verdict. */
  lemma EarlierFailureWins(d: FormData, email: Option<string>, subject: Option<string>, message: Option<string>)
    requires !LengthRule(d.name, 2)
    ensures ValidateData(d) == ValidateData(d.(email := email, subject := subject, message := message))
    ensures ValidateData(d) == Invalid(NameError)
  {
  }

  /** A missing, empty or all-whitespace name fails the name rule, whatever the other fields hold. */
  lemma EmptyFieldFails(d: FormData)
    requires d.name == None || d.name == Some("") || (d.name.Some? && AllWhitespace(d.name.value))
    ensures ValidateData(d) == Invalid(NameError)
  {
    if d.name.Some? { TrimEmptyIff(d.name.value); }
  }

  /** `length` counts UTF-16 code units: a name of one character beyond the Basic
      Multilingual Plane, such as an emoji, is two units long and passes the name rule. */
  lemma AstralCharacterNamePasses(c: char)
    requires c as int >= 0x1_0000
    ensures LengthRule(Some([c]), 2)
  {
    assert TrimStart([c]) == [c];
    assert TrimEnd([c]) == [c];
    assert [c][1..] == [];
  }

  // ---------------------------------------------------------------------------
  // validateField
  // ---------------------------------------------------------------------------

  /** The `switch` of `validateField` on an already trimmed value: whether the field is
      valid and the message it would show. A field name it does not know is valid. */
  datatype FieldRule = FieldRule(valid: bool, message: string)

  function RuleFor(fieldName: string, value: string): (r: FieldRule)
    ensures fieldName !in {"name", "email", "subject", "message"} ==> r == FieldRule(true, "")
    ensures fieldName == "email" ==> (r.valid <==> MatchesEmailRegex(value))
  {
    IsEmailMatchesRegex(value);
    match fieldName
    case "name" => FieldRule(Utf16Length(value) >= 2, NameError)
    case "email" => FieldRule(IsEmail(value), EmailError)
    case "subject" => FieldRule(Utf16Length(value) >= 5, SubjectError)
    case "message" => FieldRule(Utf16Length(value) >= 10, MessageError)
    case _ => FieldRule(true, "")
  }

  /** For name, subject and message the blur check and the submit check agree on any
      value the form holds. */
  lemma FieldAgreesWithData(fieldName: string, min: nat, raw: string)
    requires (fieldName, min) in {("name", 2), ("subject", 5), ("message", 10)}
    ensures RuleFor(fieldName, Trim(raw)).valid <==> LengthRule(Some(raw), min)
  {
  }

  /** The blur check trims the e-mail and the submit check does not: everything the
      submit check accepts the blur check accepts, but an address with surrounding
      whitespace passes on blur and still fails on submit. */
  lemma EmailTrimDivergence(raw: string)
    ensures EmailRule(Some(raw)) ==> RuleFor("email", Trim(raw)).valid
    ensures IsEmail(Trim(raw)) && Trim(raw) != raw ==>
      RuleFor("email", Trim(raw)).valid && !EmailRule(Some(raw))
  {
    if IsEmail(raw) {
      NoWhitespaceIsTrimmed(raw);
    }
    if Trim(raw) != raw {
      TrimChangedHasWhitespace(raw);
    }
  }

  // ---------------------------------------------------------------------------
  // handleSubmit
  // ---------------------------------------------------------------------------

  /** What `fetch` plus `response.json()` gave back: a rejection (network failure or an
      unparsable body, with its error message), or a response with its `ok` flag, the
      truthiness of `result.success` and `result.message` if it is present. */
  datatype FetchReply =
    | Thrown(error: string)
    | Response(ok: bool, success: bool, message: Option<string>)

  /** The three ways a submission ends. */
  datatype Outcome =
    | Rejected(message: string)   // validation failed: nothing was sent
    | Failed(message: string)     // sent, and the request failed
    | Succeeded

  /** How `handleSubmit` classifies a submission. */
  function SubmitOutcome(d: FormData, reply: FetchReply): (o: Outcome)
    ensures o.Rejected? <==> ValidateData(d).Invalid?
    ensures o.Rejected? ==> o.message == ValidateData(d).message
    ensures o == Succeeded <==> ValidateData(d) == Valid && reply.Response? && reply.ok && reply.success
    ensures o.Failed? && reply.Thrown? ==> o.message == reply.error
    ensures o.Failed? && reply.Response? ==>
      o.message == (if Truthy(reply.message) then reply.message.value else SendFailed)
  {
    match ValidateData(d)
    case Invalid(m) => Rejected(m)
    case Valid =>
      match reply
      case Thrown(e) => Failed(e)
      case Response(ok, success, message) =>
        if !ok || !success then Failed(if Truthy(message) then message.value else SendFailed)
        else Succeeded
  }

  /** The values of the form's inputs. */
  datatype FormValues = FormValues(
    name: Option<string>,
    email: Option<string>,
    subject: Option<string>,
    message: Option<string>)

  /** `form.reset()`: every input that exists goes back to its (empty) default. */
  function Reset(v: FormValues): (r: FormValues)
    ensures r.name.Some? == v.name.Some? && r.email.Some? == v.email.Some?
    ensures r.subject.Some? == v.subject.Some? && r.message.Some? == v.message.Some?
    ensures (r.name == None || r.name == Some("")) && (r.email == None || r.email == Some(""))
    ensures (r.subject == None || r.subject == Some("")) && (r.message == None || r.message == Some(""))
    ensures ValidateData(Collect(r, "")).Invalid?
  {
    var clear := (o: Option<string>) => if o.Some? then Some("") else None;
    var r := FormValues(clear(v.name), clear(v.email), clear(v.subject), clear(v.message));
    assert !LengthRule(r.name, 2);
    r
  }

  /** The object `handleSubmit` builds from the inputs and the current time. */
  function Collect(v: FormValues, now: string): FormData {
    FormData(v.name, v.email, v.subject, v.message, now)
  }

  /** The form, its submit button and what the handler has shown or sent. */
  class ContactFormHandler {
    var values: FormValues
    /** Inline errors on screen, by field name. */
    var fieldErrors: map<string, string>
    /** The submit button's `loading` class and `disabled` property. */
    var loading: bool
    var disabled: bool
    /** Whether the success modal is shown. */
    var modalShown: bool
    /** Error notifications shown, oldest first. */
    var notices: seq<string>
    /** Request bodies sent to the contact endpoint, oldest first. */
    var requests: seq<FormData>

    constructor (values: FormValues)
      ensures this.values == values && fieldErrors == map[]
      ensures !loading && !disabled && !modalShown && notices == [] && requests == []
    {
      this.values := values;
      fieldErrors := map[];
      loading, disabled, modalShown := false, false, false;
      notices, requests := [], [];
    }

    /** The POST to the contact endpoint; it can only happen while the button is disabled. */
    method Send(d: FormData)
      requires disabled
      modifies this`requests
      ensures requests == old(requests) + [d]
    {
      requests := requests + [d];
    }

    /** `clearFieldError`, run on every `input` event. */
    method ClearFieldError(fieldName: string)
      modifies this`fieldErrors
      ensures fieldErrors == old(fieldErrors) - {fieldName}
    {
      fieldErrors := fieldErrors - {fieldName};
    }

    /** `validateField`, run on `blur`: the value is trimmed, the rule for the field's
        name decides the result, and the inline error is shown only for an invalid,
        non-empty value; otherwise it is cleared. */
    method ValidateField(fieldName: string, raw: string) returns (isValid: bool)
      modifies this`fieldErrors
      ensures isValid == RuleFor(fieldName, Trim(raw)).valid
      ensures fieldName !in {"name", "email", "subject", "message"} ==> isValid
      ensures !isValid && Trim(raw) != "" ==>
        fieldErrors == old(fieldErrors)[fieldName := RuleFor(fieldName, Trim(raw)).message]
      ensures isValid || Trim(raw) == "" ==> fieldErrors == old(fieldErrors) - {fieldName}
    {
      var value := Trim(raw);
      var rule := RuleFor(fieldName, value);
      isValid := rule.valid;
      if !isValid && value != "" {
        fieldErrors := fieldErrors[fieldName := rule.message];
      } else {
        ClearFieldError(fieldName);
      }
    }

    /** `handleSubmit`: the button is disabled first; invalid data is reported without
        any request; otherwise one request is sent and the reply classified; on success
        the modal is shown, the form reset and the inline errors cleared; in every case
        the button ends enabled. */
    method HandleSubmit(now: string, reply: FetchReply)
      modifies this
      ensures SubmitOutcome(Collect(old(values), now), reply).Rejected? ==>
        requests == old(requests)
      ensures !SubmitOutcome(Collect(old(values), now), reply).Rejected? ==>
        requests == old(requests) + [Collect(old(values), now)]
      ensures SubmitOutcome(Collect(old(values), now), reply) != Succeeded ==>
        && notices == old(notices) + [SubmitOutcome(Collect(old(values), now), reply).message]
        && values == old(values) && fieldErrors == old(fieldErrors) && modalShown == old(modalShown)
      ensures SubmitOutcome(Collect(old(values), now), reply) == Succeeded ==>
        && notices == old(notices) && modalShown
        && values == Reset(old(values)) && fieldErrors == map[]
      ensures !loading && !disabled
    {
      loading := true;
      disabled := true;
      var d := Collect(values, now);
      var validation := ValidateData(d);
      if validation.Invalid? {
        notices := notices + [validation.message];
      } else {
        Send(d);
        match reply {
          case Thrown(e) =>
            notices := notices + [e];
          case Response(ok, success, message) =>
            if !ok || !success {
              notices := notices + [if Truthy(message) then message.value else SendFailed];
            } else {
              modalShown := true;
              values := Reset(values);
              fieldErrors := map[];
            }
        }
      }
      loading := false;
      disabled := false;
    }
  }
}
