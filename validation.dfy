/**
 * The feedback form's validator: six text fields in, a map from failing
 * field to the kind of its first failing rule out. Every field has an
 * emptiness rule on its trimmed value and at most one further rule, and
 * the emptiness rule is checked first.
 */
module Validation {
  import opened Chars
  import opened Patterns

  datatype Option<T> = None | Some(value: T)

  /** The six fields of the form (the keys of `FormData`). */
  datatype Field = Name | Email | Phone | Category | Subject | Message

  const AllFields: set<Field> := {Name, Email, Phone, Category, Subject, Message}

  /**
   * Which rule a field broke. The source shows a fixed message per field
   * and rule; the message is determined by the field and this kind.
   */
  datatype ErrKind =
    | Required   // nothing but whitespace was entered (no category chosen)
    | TooShort   // trimmed text shorter than the field's minimum
    | BadFormat  // email or phone does not match its pattern

  /** The values of the six fields. */
  datatype FormData = FormData(
    name: string, email: string, phone: string,
    category: string, subject: string, message: string)
  {
    function Get(f: Field): string
    {
      match f
      case Name => name
      case Email => email
      case Phone => phone
      case Category => category
      case Subject => subject
      case Message => message
    }

    /** `{ ...prev, [field]: value }`: one field replaced, the others kept. */
    function Set(f: Field, v: string): (d: FormData)
      ensures d.Get(f) == v
      ensures forall g :: g != f ==> d.Get(g) == Get(g)
    {
      match f
      case Name => this.(name := v)
      case Email => this.(email := v)
      case Phone => this.(phone := v)
      case Category => this.(category := v)
      case Subject => this.(subject := v)
      case Message => this.(message := v)
    }
  }

  /** The form as first shown and as reset after a successful submission. */
  const EmptyForm := FormData("", "", "", "", "", "")

  /** The options the category selector offers (their values). */
  const Categories: seq<string> := ["complaint", "suggestion", "question", "info-request", "service", "other"]

  /** Minimum trimmed `.length` of the free-text fields. */
  const NameMinLength := 2
  const SubjectMinLength := 5
  const MessageMinLength := 10

  /** A required text of at least `min` UTF-16 code units after trimming. */
  function LengthRule(v: string, min: nat): Option<ErrKind>
  {
    var t := Trim(v);
    if t == [] then Some(Required)
    else if Utf16Length(t) < min then Some(TooShort)
    else None
  }

  /** A required text that must also pass `ok` (tested on the value as entered). */
  function FormatRule(v: string, ok: bool): Option<ErrKind>
  {
    if Trim(v) == [] then Some(Required)
    else if !ok then Some(BadFormat)
    else None
  }

  /** A field left empty: a blank text field, or no category (the category is not trimmed). */
  ghost predicate Blank(d: FormData, f: Field)
  {
    if f == Category then d.category == [] else AllWhitespace(d.Get(f))
  }

  /** The kind a non-blank field gets when its second rule fails. */
  function SecondRuleKind(f: Field): ErrKind
  {
    match f
    case Name | Subject | Message => TooShort
    case Email | Phone => BadFormat
    case Category => Required
  }

  /** A length rule fails on blank text with "required", and otherwise exactly when the text is short. */
  lemma LengthRuleMeaning(v: string, min: nat)
    requires min > 0
    ensures LengthRule(v, min) == Some(Required) <==> AllWhitespace(v)
    ensures LengthRule(v, min).Some? <==> Utf16Length(Trim(v)) < min
    ensures LengthRule(v, min) != Some(BadFormat)
  {
    TrimEmptyIff(v);
  }

  /** The email rule: "required" on blank input, otherwise an error exactly outside the regex language. */
  lemma EmailRuleMeaning(v: string)
    ensures FormatRule(v, EmailMatches(v)) == Some(Required) <==> AllWhitespace(v)
    ensures FormatRule(v, EmailMatches(v)).Some? <==> !EmailShape(v)
    ensures FormatRule(v, EmailMatches(v)) != Some(TooShort)
  {
    TrimEmptyIff(v);
    EmailMatchesIffShape(v);
    if EmailShape(v) {
      // a match has a non-whitespace first character
      var l, x, y :| EmailRun(l) && EmailRun(x) && EmailRun(y) && v == l + "@" + x + "." + y;
      assert v[0] == l[0];
    }
  }

  /** The phone rule: "required" on blank input, otherwise an error exactly when the stripped text misses the regex. */
  lemma PhoneRuleMeaning(v: string)
    ensures FormatRule(v, PhoneMatches(v)) == Some(Required) <==> AllWhitespace(v)
    ensures FormatRule(v, PhoneMatches(v)).Some? <==> !Matches(PhonePattern, StripWhitespace(v), 0)
    ensures FormatRule(v, PhoneMatches(v)) != Some(TooShort)
  {
    TrimEmptyIff(v);
    PhoneMatchesIffRegex(v);
    if AllWhitespace(v) && PhoneMatches(v) {
      PhoneHasElevenDigits(v);
      StripEmptyIff(v);
    }
  }

  /** `newErrors.field = ...` when a rule failed; nothing otherwise. */
  function Record(m: map<Field, ErrKind>, f: Field, check: Option<ErrKind>): map<Field, ErrKind>
  {
    if check.Some? then m[f := check.value] else m
  }

  /**
   * `validateForm`: the error map built from scratch out of the six
   * values, field by field, each field's first failing rule deciding its
   * entry. What the entry means is stated per field in the lemmas below.
   */
  function Validate(d: FormData): map<Field, ErrKind>
  {
    var name := LengthRule(d.name, NameMinLength);
    var email := FormatRule(d.email, EmailMatches(d.email));
    var phone := FormatRule(d.phone, PhoneMatches(d.phone));
    var category := if d.category == [] then Some(Required) else None;
    var subject := LengthRule(d.subject, SubjectMinLength);
    var message := LengthRule(d.message, MessageMinLength);
    Record(Record(Record(Record(Record(Record(map[],
      Name, name), Email, email), Phone, phone), Category, category), Subject, subject), Message, message)
  }

  /** Name: an error exactly when the trimmed name is under 2 code units; "required" exactly when it is blank. */
  lemma NameVerdict(d: FormData)
    ensures Name in Validate(d) <==> Utf16Length(Trim(d.name)) < NameMinLength
    ensures Name in Validate(d) ==> Validate(d)[Name] == (if AllWhitespace(d.name) then Required else TooShort)
  {
    LengthRuleMeaning(d.name, NameMinLength);
  }

  /** Email: an error exactly outside the regex language; "required" exactly when blank. */
  lemma EmailVerdict(d: FormData)
    ensures Email in Validate(d) <==> !EmailShape(d.email)
    ensures Email in Validate(d) ==> Validate(d)[Email] == (if AllWhitespace(d.email) then Required else BadFormat)
  {
    EmailRuleMeaning(d.email);
  }

  /** Phone: an error exactly when the whitespace-free value misses the regex; "required" exactly when blank. */
  lemma PhoneVerdict(d: FormData)
    ensures Phone in Validate(d) <==> !Matches(PhonePattern, StripWhitespace(d.phone), 0)
    ensures Phone in Validate(d) ==> Validate(d)[Phone] == (if AllWhitespace(d.phone) then Required else BadFormat)
  {
    PhoneRuleMeaning(d.phone);
  }

  /** Category: "required" exactly when no category is set. */
  lemma CategoryVerdict(d: FormData)
    ensures Category in Validate(d) <==> d.category == []
    ensures Category in Validate(d) ==> Validate(d)[Category] == Required
  {
  }

  /** Subject: an error exactly when the trimmed subject is under 5 code units; "required" exactly when blank. */
  lemma SubjectVerdict(d: FormData)
    ensures Subject in Validate(d) <==> Utf16Length(Trim(d.subject)) < SubjectMinLength
    ensures Subject in Validate(d) ==> Validate(d)[Subject] == (if AllWhitespace(d.subject) then Required else TooShort)
  {
    LengthRuleMeaning(d.subject, SubjectMinLength);
  }

  /** Message: an error exactly when the trimmed message is under 10 code units; "required" exactly when blank. */
  lemma MessageVerdict(d: FormData)
    ensures Message in Validate(d) <==> Utf16Length(Trim(d.message)) < MessageMinLength
    ensures Message in Validate(d) ==> Validate(d)[Message] == (if AllWhitespace(d.message) then Required else TooShort)
  {
    LengthRuleMeaning(d.message, MessageMinLength);
  }

  /** The emptiness rule wins: a blank field always carries "required", and only a blank field does. */
  lemma RequiredTakesPrecedence(d: FormData, f: Field)
    ensures Blank(d, f) ==> f in Validate(d) && Validate(d)[f] == Required
    ensures f in Validate(d) && Validate(d)[f] == Required ==> Blank(d, f)
    ensures f in Validate(d) && !Blank(d, f) ==> Validate(d)[f] == SecondRuleKind(f)
  {
    match f
    case Name => NameVerdict(d); TrimEmptyIff(d.name);
    case Email => EmailVerdict(d); EmailRuleMeaning(d.email);
    case Phone => PhoneVerdict(d); PhoneRuleMeaning(d.phone);
    case Category => CategoryVerdict(d);
    case Subject => SubjectVerdict(d); TrimEmptyIff(d.subject);
    case Message => MessageVerdict(d); TrimEmptyIff(d.message);
  }

  /** `Object.keys(newErrors).length === 0`. */
  predicate IsValid(d: FormData)
  {
    |Validate(d)| == 0
  }

  /** A form passes exactly when every field satisfies its rules. */
  lemma ValidIffAllRulesHold(d: FormData)
    ensures IsValid(d) <==>
      && Utf16Length(Trim(d.name)) >= NameMinLength
      && EmailShape(d.email)
      && Matches(PhonePattern, StripWhitespace(d.phone), 0)
      && d.category != []
      && Utf16Length(Trim(d.subject)) >= SubjectMinLength
      && Utf16Length(Trim(d.message)) >= MessageMinLength
  {
    NameVerdict(d);
    EmailVerdict(d);
    PhoneVerdict(d);
    CategoryVerdict(d);
    SubjectVerdict(d);
    MessageVerdict(d);
    var r := Validate(d);
    if |r| != 0 {
      var f :| f in r;
      assert f in AllFields;
    }
  }

  /** The untouched form fails every field with "required". */
  lemma EmptyFormAllRequired()
    ensures Validate(EmptyForm) ==
      map[Name := Required, Email := Required, Phone := Required,
          Category := Required, Subject := Required, Message := Required]
  {
    var r := Validate(EmptyForm);
    forall f ensures Blank(EmptyForm, f) {
      assert EmptyForm.Get(f) == [];
    }
    assert r.Keys == AllFields;
  }

  /** A field's verdict depends on that field's value alone. */
  lemma VerdictIsLocal(d: FormData, f: Field, v: string, g: Field)
    requires g != f
    ensures g in Validate(d.Set(f, v)) <==> g in Validate(d)
    ensures g in Validate(d) ==> Validate(d.Set(f, v))[g] == Validate(d)[g]
  {
    var e := d.Set(f, v);
    assert e.Get(g) == d.Get(g);
    match g
    case Name => NameVerdict(d); NameVerdict(e);
    case Email => EmailVerdict(d); EmailVerdict(e);
    case Phone => PhoneVerdict(d); PhoneVerdict(e);
    case Category => CategoryVerdict(d); CategoryVerdict(e);
    case Subject => SubjectVerdict(d); SubjectVerdict(e);
    case Message => MessageVerdict(d); MessageVerdict(e);
  }

  /** Any non-empty category passes: the value is not checked against `Categories`. */
  lemma CategoryNotCheckedAgainstList()
    ensures "unknown" !in Categories
    ensures Category !in Validate(EmptyForm.Set(Category, "unknown"))
  {
  }
}
