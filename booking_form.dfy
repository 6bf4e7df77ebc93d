/**
 * The contact-details step: four field rules that fill an error map,
 * submission gated on that map being empty, and editing that clears the
 * edited field's error.
 */
module BookingForm {
  import opened Optional
  import opened JsText

  datatype FormData = FormData(name: string, email: string, phone: string, groupSize: int)

  datatype Field = Name | Email | Phone | GroupSize

  /** What `updateField` may be given: text for the three text inputs, a number for the group-size select. */
  datatype FieldValue = Text(text: string) | Count(count: int)

  const NameRequired := "Name is required"
  const EmailRequired := "Email is required"
  const EmailInvalid := "Please enter a valid email"
  const PhoneRequired := "Phone number is required"
  const PhoneInvalid := "Please enter a valid phone number"
  const GroupSizeOutOfRange := "Group size must be between 1 and 12"

  const MinGroupSize := 1
  const MaxGroupSize := 12

  predicate AllNonSpace(s: string) {
    forall i :: 0 <= i < |s| ==> !IsSpace(s[i])
  }

  /**
   * `s[a..e]` is a match of the regular expression `\S+@\S+\.\S+` with its
   * '@' at `p` and its '.' at `q`: a run of non-space characters, '@', a run
   * of non-space characters, '.', and a run of non-space characters.
   */
  ghost predicate EmailMatchAt(s: string, a: int, p: int, q: int, e: int) {
    && 0 <= a < p && p + 1 < q && q + 1 < e <= |s|
    && s[p] == '@' && s[q] == '.'
    && AllNonSpace(s[a..p]) && AllNonSpace(s[p + 1..q]) && AllNonSpace(s[q + 1..e])
  }

  /** The regular expression `\S+@\S+\.\S+` matches somewhere in `s` (the pattern is not anchored). */
  ghost predicate MatchesEmailPattern(s: string) {
    exists a, p, q, e :: EmailMatchAt(s, a, p, q, e)
  }

  /** An '@' at `p` with a non-space character before it, then non-space characters up to a '.' at `q` that has a non-space character after it. */
  predicate EmailShapeAt(s: string, p: int, q: int) {
    && 1 <= p && p + 1 < q && q + 1 < |s|
    && s[p] == '@' && s[q] == '.'
    && !IsSpace(s[p - 1]) && !IsSpace(s[q + 1]) && AllNonSpace(s[p + 1..q])
  }

  /** The email test as the form evaluates it. */
  predicate EmailLooksValid(s: string) {
    exists p, q | 0 <= p < |s| && 0 <= q < |s| :: EmailShapeAt(s, p, q)
  }

  /** The form's email test is exactly the regular expression's unanchored match. */
  lemma EmailTestMatchesPattern(s: string)
    ensures EmailLooksValid(s) <==> MatchesEmailPattern(s)
  {
    if EmailLooksValid(s) {
      var p, q :| 0 <= p < |s| && 0 <= q < |s| && EmailShapeAt(s, p, q);
      assert AllNonSpace(s[p - 1..p]);
      assert AllNonSpace(s[q + 1..q + 2]);
      assert EmailMatchAt(s, p - 1, p, q, q + 2);
    }
    if MatchesEmailPattern(s) {
      var a, p, q, e :| EmailMatchAt(s, a, p, q, e);
      assert s[a..p][p - 1 - a] == s[p - 1];
      assert s[q + 1..e][0] == s[q + 1];
      assert EmailShapeAt(s, p, q);
    }
  }

  /** Characters of the class `[\d\s\-\(\)]`. */
  predicate IsPhoneChar(c: char) {
    IsDigit(c) || IsSpace(c) || c == '-' || c == '(' || c == ')'
  }

  predicate AllPhoneChars(s: string) {
    forall i :: 0 <= i < |s| ==> IsPhoneChar(s[i])
  }

  /** The regular expression `^\+?[\d\s\-\(\)]+$` matches all of `s`, with or without the '+'. */
  ghost predicate MatchesPhonePattern(s: string) {
    || (|s| >= 1 && AllPhoneChars(s))
    || (|s| >= 2 && s[0] == '+' && AllPhoneChars(s[1..]))
  }

  /** The phone test as the form evaluates it: after an optional leading '+', one or more allowed characters. */
  predicate PhoneLooksValid(s: string) {
    var body := if s != [] && s[0] == '+' then s[1..] else s;
    body != [] && AllPhoneChars(body)
  }

  /** The form's phone test is exactly the regular expression's anchored match. */
  lemma PhoneTestMatchesPattern(s: string)
    ensures PhoneLooksValid(s) <==> MatchesPhonePattern(s)
  {
    if s != [] && s[0] == '+' {
      assert !IsPhoneChar(s[0]);
    }
  }

  /** The outcome of each test the rules apply to a form, before any message is attached. */
  datatype Verdicts = Verdicts(
    nameBlank: bool, emailBlank: bool, emailLooksValid: bool,
    phoneBlank: bool, phoneLooksValid: bool, groupSizeInRange: bool)

  /** The tests as the rules write them: `!x.trim()`, the two regular expressions and the range check. */
  function Assess(f: FormData): Verdicts {
    Verdicts(
      Trim(f.name) == [],
      Trim(f.email) == [], EmailLooksValid(f.email),
      Trim(f.phone) == [], PhoneLooksValid(f.phone),
      MinGroupSize <= f.groupSize <= MaxGroupSize)
  }

  /** The message field `k`'s rule records, if the rule fails. */
  function RuleError(v: Verdicts, k: Field): Option<string> {
    match k
    case Name => if v.nameBlank then Some(NameRequired) else None
    case Email =>
      if v.emailBlank then Some(EmailRequired)
      else if !v.emailLooksValid then Some(EmailInvalid)
      else None
    case Phone =>
      if v.phoneBlank then Some(PhoneRequired)
      else if !v.phoneLooksValid then Some(PhoneInvalid)
      else None
    case GroupSize => if !v.groupSizeInRange then Some(GroupSizeOutOfRange) else None
  }

  /** Records field `k`'s error in `errors` if its rule fails. */
  function ApplyRule(errors: map<Field, string>, v: Verdicts, k: Field): map<Field, string> {
    if RuleError(v, k).Some? then errors[k := RuleError(v, k).value] else errors
  }

  /** The error map the four rules build, each in turn writing its own key when it fails. */
  function ErrorsFor(v: Verdicts): map<Field, string> {
    ApplyRule(ApplyRule(ApplyRule(ApplyRule(map[], v, Name), v, Email), v, Phone), v, GroupSize)
  }

  /** The error map `validateForm` builds for `f`. */
  function ValidationErrors(f: FormData): map<Field, string> {
    ErrorsFor(Assess(f))
  }

  /**
   * Each rule writes only its own key: a field's entry is there exactly when
   * its own rule fails and holds that rule's message, and nothing else is in the map.
   */
  lemma ErrorsFollowRules(v: Verdicts)
    ensures forall k :: k in ErrorsFor(v) <==> RuleError(v, k).Some?
    ensures forall k :: k in ErrorsFor(v) ==> ErrorsFor(v)[k] == RuleError(v, k).value
  {
    forall k
      ensures k in ErrorsFor(v) <==> RuleError(v, k).Some?
      ensures k in ErrorsFor(v) ==> ErrorsFor(v)[k] == RuleError(v, k).value
    {
      match k
      case Name =>
      case Email =>
      case Phone =>
      case GroupSize =>
    }
  }

  /** What each entry of the error map means, in terms of white space and the two regular expressions. */
  lemma RuleMeanings(f: FormData)
    ensures Name in ValidationErrors(f) <==> IsBlank(f.name)
    ensures Name in ValidationErrors(f) ==> ValidationErrors(f)[Name] == NameRequired
    ensures Email in ValidationErrors(f) <==> IsBlank(f.email) || !MatchesEmailPattern(f.email)
    ensures Email in ValidationErrors(f) ==>
      ValidationErrors(f)[Email] == if IsBlank(f.email) then EmailRequired else EmailInvalid
    ensures Phone in ValidationErrors(f) <==> IsBlank(f.phone) || !MatchesPhonePattern(f.phone)
    ensures Phone in ValidationErrors(f) ==>
      ValidationErrors(f)[Phone] == if IsBlank(f.phone) then PhoneRequired else PhoneInvalid
    ensures GroupSize in ValidationErrors(f) <==> f.groupSize < MinGroupSize || f.groupSize > MaxGroupSize
    ensures GroupSize in ValidationErrors(f) ==> ValidationErrors(f)[GroupSize] == GroupSizeOutOfRange
  {
    EmailTestMatchesPattern(f.email);
    PhoneTestMatchesPattern(f.phone);
    var v := Assess(f);
    ErrorsFollowRules(v);
    assert Name in ErrorsFor(v) <==> RuleError(v, Name).Some?;
    assert Email in ErrorsFor(v) <==> RuleError(v, Email).Some?;
    assert Phone in ErrorsFor(v) <==> RuleError(v, Phone).Some?;
    assert GroupSize in ErrorsFor(v) <==> RuleError(v, GroupSize).Some?;
  }

  /** Contact details that every rule accepts. */
  ghost predicate Acceptable(f: FormData) {
    && !IsBlank(f.name)
    && !IsBlank(f.email) && MatchesEmailPattern(f.email)
    && !IsBlank(f.phone) && MatchesPhonePattern(f.phone)
    && MinGroupSize <= f.groupSize <= MaxGroupSize
  }

  /** The error map is empty exactly when all four rules accept. */
  lemma NoErrorsIffAcceptable(f: FormData)
    ensures ValidationErrors(f) == map[] <==> Acceptable(f)
  {
    var errors := ValidationErrors(f);
    RuleMeanings(f);
    if Acceptable(f) {
      assert errors.Keys == {} by {
        forall k | k in errors ensures false {
          match k
          case Name =>
          case Email =>
          case Phone =>
          case GroupSize =>
        }
      }
    }
  }

  /** The value `f` holds for field `k`. */
  function FieldValueOf(f: FormData, k: Field): FieldValue {
    match k
    case Name => Text(f.name)
    case Email => Text(f.email)
    case Phone => Text(f.phone)
    case GroupSize => Count(f.groupSize)
  }

  predicate Fits(k: Field, v: FieldValue) {
    if k == GroupSize then v.Count? else v.Text?
  }

  /** `{ ...prev, [field]: value }`: field `k` takes `v` and every other field keeps its value. */
  function WithField(f: FormData, k: Field, v: FieldValue): (r: FormData)
    requires Fits(k, v)
    ensures FieldValueOf(r, k) == v
    ensures forall other :: other != k ==> FieldValueOf(r, other) == FieldValueOf(f, other)
  {
    match k
    case Name => f.(name := v.text)
    case Email => f.(email := v.text)
    case Phone => f.(phone := v.text)
    case GroupSize => f.(groupSize := v.count)
  }

  /** The group sizes the select offers, 1 to 12 in order. */
  function GroupSizeOptions(): seq<int> {
    seq(MaxGroupSize, i => i + 1)
  }

  /** The select offers exactly the sizes the range rule accepts, so a size picked from it never fails that rule. */
  lemma GroupSizeOptionsInRange(f: FormData, g: int)
    ensures g in GroupSizeOptions() <==> MinGroupSize <= g <= MaxGroupSize
    ensures g in GroupSizeOptions() ==> GroupSize !in ValidationErrors(f.(groupSize := g))
  {
    var options := GroupSizeOptions();
    if MinGroupSize <= g <= MaxGroupSize {
      assert options[g - 1] == g;
    }
    if g in options {
      var i :| 0 <= i < |options| && options[i] == g;
      SizeInRangeAccepted(f.(groupSize := g));
    }
  }

  lemma SizeInRangeAccepted(f: FormData)
    requires MinGroupSize <= f.groupSize <= MaxGroupSize
    ensures GroupSize !in ValidationErrors(f)
  {
    var v := Assess(f);
    assert v.groupSizeInRange;
    ErrorsFollowRules(v);
    assert RuleError(v, GroupSize).None?;
  }

  /** Every message the rules record is non-empty. */
  lemma MessagesNonEmpty(v: Verdicts)
    ensures forall k :: k in ErrorsFor(v) ==> ErrorsFor(v)[k] != ""
  {
    ErrorsFollowRules(v);
    forall k | k in ErrorsFor(v) ensures ErrorsFor(v)[k] != "" {
      match k
      case Name =>
      case Email =>
      case Phone =>
      case GroupSize =>
    }
  }

  /** The body of `validateForm`: each failing rule assigns its own key of a fresh map, in field order. */
  method RecordErrors(v: Verdicts) returns (newErrors: map<Field, string>)
    ensures newErrors == ErrorsFor(v)
  {
    newErrors := map[];
    if v.nameBlank {
      newErrors := newErrors[Name := NameRequired];
    }
    if v.emailBlank {
      newErrors := newErrors[Email := EmailRequired];
    } else if !v.emailLooksValid {
      newErrors := newErrors[Email := EmailInvalid];
    }
    if v.phoneBlank {
      newErrors := newErrors[Phone := PhoneRequired];
    } else if !v.phoneLooksValid {
      newErrors := newErrors[Phone := PhoneInvalid];
    }
    if !v.groupSizeInRange {
      newErrors := newErrors[GroupSize := GroupSizeOutOfRange];
    }
  }

  /** The form component's state: the edited contact details and the displayed errors. */
  class Form {
    var formData: FormData
    var errors: map<Field, string>

    /** Every displayed error is a non-empty message, so `if (errors[field])` tests presence. */
    ghost predicate Valid()
      reads this
    {
      forall k :: k in errors ==> errors[k] != ""
    }

    /** Mounting: seeded with the flow's stored details, no errors shown. */
    constructor (initialData: FormData)
      ensures Valid()
      ensures formData == initialData && errors == map[]
    {
      formData := initialData;
      errors := map[];
    }

    /** `validateForm`: rebuilds the error map rule by rule and reports whether it is empty. */
    method ValidateForm() returns (ok: bool)
      modifies this
      ensures Valid()
      ensures formData == old(formData)
      ensures errors == ValidationErrors(formData)
      ensures ok <==> Acceptable(formData)
    {
      var v := Assess(formData);
      var newErrors := RecordErrors(v);
      MessagesNonEmpty(v);
      errors := newErrors;
      NoErrorsIffAcceptable(formData);
      ok := |newErrors| == 0;
      assert ok <==> newErrors == map[] by {
        if newErrors != map[] {
          var k :| k in newErrors;
          assert k in newErrors.Keys;
        }
      }
    }

    /** `handleSubmit`: validates, and passes the current details on exactly when nothing failed. */
    method HandleSubmit() returns (submitted: Option<FormData>)
      modifies this
      ensures Valid()
      ensures formData == old(formData)
      ensures errors == ValidationErrors(formData)
      ensures submitted == if Acceptable(formData) then Some(formData) else None
    {
      var ok := ValidateForm();
      if ok {
        submitted := Some(formData);
      } else {
        submitted := None;
      }
    }

    /** `updateField`: sets one field and removes that field's error, leaving everything else as it was. */
    method UpdateField(k: Field, v: FieldValue)
      requires Valid() && Fits(k, v)
      modifies this
      ensures Valid()
      ensures formData == WithField(old(formData), k, v)
      ensures errors == old(errors) - {k}
    {
      formData := WithField(formData, k, v);
      if k in errors && errors[k] != "" {
        errors := errors - {k};
      }
    }
  }
}
