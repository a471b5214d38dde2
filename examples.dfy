/**
 * Concrete inputs applied to the validator: the cases the form's
 * behaviour is usually explained with, each proved about `Validate`
 * itself through the per-field verdict lemmas.
 */
module Examples {
  import opened Chars
  import opened Patterns
  import opened Validation
  import opened Form

  // ----------------------------------------------------------------- name

  /** A one-letter name is too short. */
  lemma OneLetterNameTooShort(d: FormData)
    requires d.name == "A"
    ensures Name in Validate(d) && Validate(d)[Name] == TooShort
  {
    NameVerdict(d);
    assert Trim("A") == "A";
    assert Utf16Length("A") == 1;
  }

  /** Length is counted after trimming: " A " is still one letter. */
  lemma PaddedNameTooShort(d: FormData)
    requires d.name == " A "
    ensures Name in Validate(d) && Validate(d)[Name] == TooShort
  {
    NameVerdict(d);
    assert SkipLeading(" A ", 1) == 1;
    assert SkipTrailing(" A ", 1, 2) == 2;
    assert Trim(" A ") == "A";
    assert Utf16Length("A") == 1;
    assert !IsWhitespace(d.name[1]);
  }

  /** Two letters are enough. */
  lemma TwoLetterNameAccepted(d: FormData)
    requires d.name == "Al"
    ensures Name !in Validate(d)
  {
    NameVerdict(d);
    assert SkipLeading("Al", 0) == 0;
    assert SkipTrailing("Al", 0, 2) == 2;
    assert Trim("Al") == "Al";
  }

  /** A name of spaces is missing, not short. */
  lemma BlankNameRequired(d: FormData)
    requires d.name == "   "
    ensures Name in Validate(d) && Validate(d)[Name] == Required
  {
    RequiredTakesPrecedence(d, Name);
  }

  // ---------------------------------------------------------------- email

  /** "a@b" has no dot after the "@". */
  lemma EmailWithoutDotRejected(d: FormData)
    requires d.email == "a@b"
    ensures Email in Validate(d) && Validate(d)[Email] == BadFormat
  {
    EmailVerdict(d);
    EmailMatchesIffShape(d.email);
    assert FindFrom(d.email, '@', 1) == 1;
    assert !IsWhitespace(d.email[0]);
  }

  /** The scanner accepts "user@example.com". */
  lemma PlainEmailMatches()
    ensures EmailMatches("user@example.com")
  {
    var s := "user@example.com";
    assert FindFrom(s, '@', 4) == 4;
    assert FindFrom(s, '@', 3) == 4;
    assert FindFrom(s, '@', 2) == 4;
    assert FindFrom(s, '@', 1) == 4;
    assert IndexOf(s, '@') == 4;
    assert s[12] == '.';
  }

  /** An ordinary address passes. */
  lemma PlainEmailAccepted(d: FormData)
    requires d.email == "user@example.com"
    ensures Email !in Validate(d)
  {
    EmailVerdict(d);
    EmailMatchesIffShape(d.email);
    PlainEmailMatches();
  }

  /** The email is not trimmed before the format test: a leading space fails it. */
  lemma PaddedEmailRejected(d: FormData)
    requires d.email == " a@b.c"
    ensures Email in Validate(d) && Validate(d)[Email] == BadFormat
  {
    EmailVerdict(d);
    EmailMatchesIffShape(d.email);
    assert IsWhitespace(d.email[0]) && !IsWhitespace(d.email[1]);
  }

  // ---------------------------------------------------------------- phone

  /** Removing the two spaces of `a + " " + b + " " + c`, where the pieces hold no whitespace, glues the pieces. */
  lemma StripTwoSpaces(a: string, b: string, c: string)
    requires NoWhitespace(a) && NoWhitespace(b) && NoWhitespace(c)
    ensures StripWhitespace(a + " " + b + " " + c) == a + b + c
  {
    StripKeepsClean(a);
    StripKeepsClean(b);
    StripKeepsClean(c);
    StripEmptyIff(" ");
    StripConcat(a, " ");
    StripConcat(a + " ", b);
    StripConcat(a + " " + b, " ");
    StripConcat(a + " " + b + " ", c);
  }

  /** The greedy pass accepts "+7912345-67-89": the area code starts at index 2, the subscriber part at 5. */
  lemma PlusFormGreedy()
    ensures MatchGreedy(PhonePattern, "+7912345-67-89", 0)
  {
    var s := "+7912345-67-89";
    assert MatchGreedy(Subscriber, s, 5);
    assert MatchGreedy(AreaCode, s, 2);
  }

  /** "+7 912 345-67-89" strips to "+7912345-67-89", which the greedy pass accepts. */
  lemma PlusFormMatches()
    ensures PhoneMatches("+7 912 345-67-89")
  {
    var a, b, c := "+7", "912", "345-67-89";
    assert "+7 912 345-67-89" == a + " " + b + " " + c;
    StripTwoSpaces(a, b, c);
    assert a + b + c == "+7912345-67-89";
    PlusFormGreedy();
  }

  /** The greedy pass accepts "8(912)345-67-89": the area code starts at index 1, the subscriber part at 6. */
  lemma ParenFormGreedy()
    ensures MatchGreedy(PhonePattern, "8(912)345-67-89", 0)
  {
    var s := "8(912)345-67-89";
    assert MatchGreedy(Subscriber, s, 6);
    assert MatchGreedy(AreaCode, s, 1);
  }

  /** "8 (912) 345-67-89" strips to "8(912)345-67-89", which the greedy pass accepts. */
  lemma ParenFormMatches()
    ensures PhoneMatches("8 (912) 345-67-89")
  {
    var a, b, c := "8", "(912)", "345-67-89";
    assert "8 (912) 345-67-89" == a + " " + b + " " + c;
    StripTwoSpaces(a, b, c);
    assert a + b + c == "8(912)345-67-89";
    ParenFormGreedy();
  }

  /** Both usual ways of writing a Russian mobile number pass. */
  lemma FormattedPhonesAccepted(d: FormData)
    requires d.phone == "+7 912 345-67-89" || d.phone == "8 (912) 345-67-89"
    ensures Phone !in Validate(d)
  {
    PhoneVerdict(d);
    PhoneMatchesIffRegex(d.phone);
    if d.phone == "+7 912 345-67-89" {
      PlusFormMatches();
    } else {
      ParenFormMatches();
    }
  }

  /** "123" does not start with a country digit. */
  lemma ShortPhoneRejected(d: FormData)
    requires d.phone == "123"
    ensures Phone in Validate(d) && Validate(d)[Phone] == BadFormat
  {
    PhoneVerdict(d);
    PhoneMatchesIffRegex(d.phone);
    StripKeepsClean("123");
    assert !MatchGreedy(PhonePattern, "123", 0);
    assert !IsWhitespace(d.phone[0]);
  }

  // ------------------------------------------------------ category, subject

  /** A subject of two letters is too short. */
  lemma ShortSubjectRejected(d: FormData)
    requires d.subject == "Hi"
    ensures Subject in Validate(d) && Validate(d)[Subject] == TooShort
  {
    SubjectVerdict(d);
    assert SkipLeading("Hi", 0) == 0;
    assert SkipTrailing("Hi", 0, 2) == 2;
    assert Trim("Hi") == "Hi";
  }

  /** A subject of eight characters passes. */
  lemma SubjectAccepted(d: FormData)
    requires d.subject == "Hi there"
    ensures Subject !in Validate(d)
  {
    SubjectVerdict(d);
    assert SkipLeading("Hi there", 0) == 0;
    assert SkipTrailing("Hi there", 0, 8) == 8;
    assert Trim("Hi there") == "Hi there";
  }

  /** A message of nineteen characters passes. */
  lemma MessageAccepted(d: FormData)
    requires d.message == "Please call me back"
    ensures Message !in Validate(d)
  {
    MessageVerdict(d);
    assert SkipLeading(d.message, 0) == 0;
    assert SkipTrailing(d.message, 0, 19) == 19;
    assert Trim(d.message) == d.message;
  }

  // ------------------------------------------------------------ whole form

  /** A filled-in form that passes every rule. */
  const Sample := FormData("Al", "user@example.com", "+7 912 345-67-89", "question", "Hi there", "Please call me back")

  /** The sample form produces no errors at all. */
  lemma SampleIsValid()
    ensures Validate(Sample) == map[]
  {
    var d := Sample;
    TwoLetterNameAccepted(d);
    PlainEmailAccepted(d);
    FormattedPhonesAccepted(d);
    CategoryVerdict(d);
    SubjectAccepted(d);
    MessageAccepted(d);
    // the six fields are all the keys there are
    forall f ensures f !in Validate(d) {
      match f
      case Name => case Email => case Phone => case Category => case Subject => case Message =>
    }
  }

  // ------------------------------------------------------------ scenarios

  /** Pressing "send" on the untouched form flags all six fields and shows one red notice. */
  method SubmitUntouchedForm() returns (form: FeedbackForm)
    ensures fresh(form)
    ensures form.errors == map[Name := Required, Email := Required, Phone := Required,
                               Category := Required, Subject := Required, Message := Required]
    ensures form.toasts == [Toast(Destructive, ValidationFailed)]
    ensures form.formData == EmptyForm && !form.isSubmitting
  {
    form := new FeedbackForm();
    EmptyFormAllRequired();
    var started := form.PressSubmit();
  }

  /** Typing the six values into a fresh form, one field at a time. */
  method Fill(d: FormData) returns (form: FeedbackForm)
    ensures fresh(form) && form.Valid()
    ensures form.formData == d && form.errors == map[]
    ensures !form.isSubmitting && form.toasts == []
  {
    form := new FeedbackForm();
    form.InputChange(Name, d.name);
    form.InputChange(Email, d.email);
    form.InputChange(Phone, d.phone);
    form.InputChange(Category, d.category);
    form.InputChange(Subject, d.subject);
    form.InputChange(Message, d.message);
    assert form.formData == d;
  }

  /**
   * Sending a passing form: a second press while it is in flight is
   * ignored, and success adds one notice and empties the form.
   */
  method SendPassing(form: FeedbackForm)
    requires form.Valid() && IsValid(form.formData) && !form.isSubmitting
    modifies form
    ensures form.toasts == old(form.toasts) + [Toast(Default, Sent)]
    ensures form.formData == EmptyForm && form.errors == map[] && !form.isSubmitting
  {
    var started := form.PressSubmit();
    assert started;
    var again := form.PressSubmit();
    assert !again;
    form.FinishSubmit(Delivered);
  }

  /** Typing a passing form and sending it: one notice, and an empty form again. */
  method FillAndSend(d: FormData) returns (form: FeedbackForm)
    requires IsValid(d)
    ensures fresh(form)
    ensures form.toasts == [Toast(Default, Sent)]
    ensures form.formData == EmptyForm && form.errors == map[] && !form.isSubmitting
  {
    form := Fill(d);
    SendPassing(form);
  }

  /** Typing a form without choosing a category and pressing "send": a category error, and nothing is sent. */
  method SubmitWithoutCategory(d: FormData) returns (form: FeedbackForm)
    requires d.category == []
    ensures fresh(form)
    ensures Category in form.errors && form.errors[Category] == Required
    ensures !form.isSubmitting && form.formData == d
    ensures form.toasts == [Toast(Destructive, ValidationFailed)]
  {
    form := Fill(d);
    CategoryVerdict(d);
    var started := form.PressSubmit();
  }

  /** The sample form goes through. */
  method SendSample() returns (form: FeedbackForm)
    ensures fresh(form)
    ensures form.toasts == [Toast(Default, Sent)]
  {
    SampleIsValid();
    form := FillAndSend(Sample);
  }
}
