/**
 * The feedback form component as a state machine: the entered values, the
 * error map shown next to the fields, the "sending" flag that disables the
 * submit button, and the notifications shown so far.
 *
 * Sending waits on a timer and then either succeeds or throws; which of
 * the two happens is passed in as an `Outcome`. The wait splits a
 * submission into two events, `BeginSubmit` and `FinishSubmit`, between
 * which the user may keep typing.
 */
module Form {
  import Chars
  import Patterns
  import opened Validation

  /** The look of a notification: plain, or the red "destructive" style. */
  datatype Variant = Default | Destructive

  /** Which notification was shown (each has a fixed title and text). */
  datatype Notice =
    | ValidationFailed  // the form has errors and was not sent
    | Sent              // the request was accepted
    | SendFailed        // sending threw

  datatype Toast = Toast(variant: Variant, notice: Notice)

  /** How the awaited sending step ends. */
  datatype Outcome = Delivered | Failed

  /**
   * Every error on display is the validator's current verdict for that
   * field: `errors` is a sub-map of `Validate(d)`. Fields may have lost
   * their error by being edited, but no error shown is stale.
   */
  ghost predicate ErrorsAgree(errors: map<Field, ErrKind>, d: FormData)
  {
    forall f :: f in errors ==> f in Validate(d) && errors[f] == Validate(d)[f]
  }

  /** Editing a field and dropping that field's error keeps the remaining errors current. */
  lemma EditKeepsErrorsAgreeing(errors: map<Field, ErrKind>, d: FormData, f: Field, v: string)
    requires ErrorsAgree(errors, d)
    ensures ErrorsAgree(errors - {f}, d.Set(f, v))
  {
    forall g | g in errors - {f}
      ensures g in Validate(d.Set(f, v)) && (errors - {f})[g] == Validate(d.Set(f, v))[g]
    {
      VerdictIsLocal(d, f, v, g);
    }
  }

  /** Without dropping the edited field's error, a shown error can go stale. */
  lemma EditWithoutClearingCanDisagree()
    ensures var d := EmptyForm;
      && ErrorsAgree(Validate(d), d)
      && !ErrorsAgree(Validate(d), d.Set(Category, "question"))
  {
    var d := EmptyForm;
    var e := d.Set(Category, "question");
    CategoryVerdict(d);
    CategoryVerdict(e);
    assert Category in Validate(d) && Category !in Validate(e);
  }

  /** One length-checked field of `validateForm`: "required" if blank after trimming, else "too short" below `min`. */
  method CheckLength(m: map<Field, ErrKind>, f: Field, v: string, min: nat) returns (r: map<Field, ErrKind>)
    ensures r == Record(m, f, LengthRule(v, min))
  {
    r := m;
    if Chars.Trim(v) == [] {
      r := r[f := Required];
    } else if Chars.Utf16Length(Chars.Trim(v)) < min {
      r := r[f := TooShort];
    }
  }

  /** One pattern-checked field of `validateForm`: "required" if blank after trimming, else "bad format" unless `ok`. */
  method CheckFormat(m: map<Field, ErrKind>, f: Field, v: string, ok: bool) returns (r: map<Field, ErrKind>)
    ensures r == Record(m, f, FormatRule(v, ok))
  {
    r := m;
    if Chars.Trim(v) == [] {
      r := r[f := Required];
    } else if !ok {
      r := r[f := BadFormat];
    }
  }

  class FeedbackForm {
    var formData: FormData
    var errors: map<Field, ErrKind>
    var isSubmitting: bool
    /** Every notification shown, oldest first. */
    var toasts: seq<Toast>

    ghost predicate Valid()
      reads this
    {
      ErrorsAgree(errors, formData)
    }

    /** The form as mounted: all fields empty, no errors, not sending. */
    constructor()
      ensures Valid()
      ensures formData == EmptyForm && errors == map[]
      ensures !isSubmitting && toasts == []
    {
      formData := EmptyForm;
      errors := map[];
      isSubmitting := false;
      toasts := [];
    }

    /**
     * `validateForm`: rebuilds the error map from scratch, field by field,
     * replacing the previous one entirely, and reports whether it is empty.
     */
    method ValidateForm() returns (ok: bool)
      modifies this`errors
      ensures errors == Validate(formData)
      ensures ok <==> IsValid(formData)
      ensures Valid()
    {
      var d := formData;
      var newErrors: map<Field, ErrKind> := map[];
      newErrors := CheckLength(newErrors, Name, d.name, NameMinLength);
      newErrors := CheckFormat(newErrors, Email, d.email, Patterns.EmailMatches(d.email));
      newErrors := CheckFormat(newErrors, Phone, d.phone, Patterns.PhoneMatches(d.phone));
      if d.category == [] {
        newErrors := newErrors[Category := Required];
      } else {
        assert newErrors == Record(newErrors, Category, None);
      }
      newErrors := CheckLength(newErrors, Subject, d.subject, SubjectMinLength);
      newErrors := CheckLength(newErrors, Message, d.message, MessageMinLength);
      errors := newErrors;
      ok := |newErrors| == 0;
    }

    /**
     * `handleInputChange`: the edited field takes the new value, the other
     * five keep theirs, and only the edited field's error is cleared.
     */
    method InputChange(field: Field, value: string)
      requires Valid()
      modifies this`formData, this`errors
      ensures formData == old(formData).Set(field, value)
      ensures errors == old(errors) - {field}
      ensures Valid()
    {
      EditKeepsErrorsAgreeing(errors, formData, field, value);
      formData := formData.Set(field, value);
      if field in errors {
        errors := errors - {field};
      }
    }

    /**
     * The synchronous part of `handleSubmit`: validate; on failure show
     * the validation notice and stop, otherwise raise the sending flag.
     */
    method BeginSubmit() returns (started: bool)
      modifies this
      ensures started <==> IsValid(formData)
      ensures formData == old(formData)
      ensures errors == Validate(formData)
      ensures !started ==> toasts == old(toasts) + [Toast(Destructive, ValidationFailed)]
      ensures !started ==> isSubmitting == old(isSubmitting)
      ensures started ==> toasts == old(toasts) && isSubmitting
      ensures Valid()
    {
      var ok := ValidateForm();
      if !ok {
        toasts := toasts + [Toast(Destructive, ValidationFailed)];
        return false;
      }
      isSubmitting := true;
      return true;
    }

    /**
     * The part of `handleSubmit` after the wait: on success a notice, the
     * form emptied and the errors cleared; on failure a red notice with the
     * entered data kept; either way the sending flag drops.
     */
    method FinishSubmit(outcome: Outcome)
      requires Valid()
      modifies this
      ensures !isSubmitting
      ensures outcome == Delivered ==>
        && formData == EmptyForm && errors == map[]
        && toasts == old(toasts) + [Toast(Default, Sent)]
      ensures outcome == Failed ==>
        && formData == old(formData) && errors == old(errors)
        && toasts == old(toasts) + [Toast(Destructive, SendFailed)]
      ensures Valid()
    {
      match outcome {
        case Delivered =>
          toasts := toasts + [Toast(Default, Sent)];
          formData := EmptyForm;
          errors := map[];
        case Failed =>
          toasts := toasts + [Toast(Destructive, SendFailed)];
      }
      isSubmitting := false;
    }

    /** A whole submission with no edits during the wait: the three ways it can end. */
    method Submit(outcome: Outcome)
      modifies this
      ensures !IsValid(old(formData)) ==>
        && formData == old(formData) && errors == Validate(formData)
        && isSubmitting == old(isSubmitting)
        && toasts == old(toasts) + [Toast(Destructive, ValidationFailed)]
      ensures IsValid(old(formData)) && outcome == Delivered ==>
        && formData == EmptyForm && errors == map[] && !isSubmitting
        && toasts == old(toasts) + [Toast(Default, Sent)]
      ensures IsValid(old(formData)) && outcome == Failed ==>
        && formData == old(formData) && errors == map[] && !isSubmitting
        && toasts == old(toasts) + [Toast(Destructive, SendFailed)]
      ensures Valid()
    {
      var started := BeginSubmit();
      if started {
        FinishSubmit(outcome);
      }
    }

    /**
     * A press of the submit button (or Enter in a field): ignored while a
     * submission is in flight, because the button is disabled then.
     */
    method PressSubmit() returns (started: bool)
      requires Valid()
      modifies this
      ensures old(isSubmitting) ==> !started && unchanged(this)
      ensures !old(isSubmitting) ==>
        && (started <==> IsValid(formData))
        && formData == old(formData) && errors == Validate(formData)
        && (started ==> isSubmitting && toasts == old(toasts))
        && (!started ==> !isSubmitting && toasts == old(toasts) + [Toast(Destructive, ValidationFailed)])
      ensures Valid()
    {
      if isSubmitting {
        return false;
      }
      started := BeginSubmit();
    }
  }
}
