/** `validateForm`: every field checked, every failure reported, as a map from
    field to message; the empty map means the enquiry may be sent. */
module Validation {
  import opened Text
  import opened Enquiry
  import opened Rules

  const FirstNamePrompt := "Please enter your first name."
  const DescriptionPrompt := "Please describe your project."
  const EmailPrompt := "Please enter your email."
  const EmailFormat := "Please enter a valid email (e.g., name@email.com)."
  const ConfirmPrompt := "Please confirm your email."
  const EmailMismatch := "Emails do not match."
  const PhonePrompt := "Please enter your phone number."
  const PhoneFormat := "Please enter a valid phone number (e.g., +447123456789 or 07123456789)."
  const ContactPrompt := "Please choose how you'd like to be contacted."
  const DatePrompt := "Please select a project start date."
  const DateTooSoon := "Start date must be at least one day in the future."
  const DurationPrompt := "Please enter your project duration."

  /** The message a field gets when it is left empty. */
  function Prompt(f: Field): string {
    match f
    case FirstName => FirstNamePrompt
    case ProjectDescription => DescriptionPrompt
    case Email => EmailPrompt
    case ConfirmEmail => ConfirmPrompt
    case Phone => PhonePrompt
    case PreferredContact => ContactPrompt
    case ProjectDate => DatePrompt
    case Duration => DurationPrompt
  }

  /** The form's emptiness test: text inputs are empty once trimmed; the contact
      select and the date input are tested untrimmed (`!formData.preferredContact`). */
  predicate IsEmptyInput(f: Field, v: string) {
    if f == PreferredContact || f == ProjectDate then v == "" else IsBlank(v)
  }

  /** One field's branch of `validateForm`: the message it assigns to `e[f]`, or
      `None` when it assigns nothing. */
  function FieldError(d: Draft, clock: Clock, f: Field): Option<string> {
    match f
    case FirstName =>
      if IsBlank(d.firstName) then Some(FirstNamePrompt) else None
    case ProjectDescription =>
      if IsBlank(d.projectDescription) then Some(DescriptionPrompt) else None
    case Email =>
      if IsBlank(d.email) then Some(EmailPrompt)
      else if !IsValidEmail(d.email) then Some(EmailFormat)
      else None
    case ConfirmEmail =>
      if IsBlank(d.confirmEmail) then Some(ConfirmPrompt)
      else if !CheckEmails(d.email, d.confirmEmail) then Some(EmailMismatch)
      else None
    case Phone =>
      if IsBlank(d.phone) then Some(PhonePrompt)
      else if !IsValidPhone(d.phone) then Some(PhoneFormat)
      else None
    case PreferredContact =>
      if d.preferredContact == "" then Some(ContactPrompt) else None
    case ProjectDate =>
      if d.projectDate == "" then Some(DatePrompt)
      else if !CheckDate(d.projectDate, clock) then Some(DateTooSoon)
      else None
    case Duration =>
      if IsBlank(d.duration) then Some(DurationPrompt) else None
  }

  /** `e.f = msg` when a branch fires, nothing otherwise. */
  function Record(e: map<Field, string>, f: Field, msg: Option<string>): (r: map<Field, string>)
    ensures forall g :: g in r <==> g in e || (g == f && msg.Some?)
    ensures forall g :: g in r ==> r[g] == if g == f && msg.Some? then msg.value else e[g]
  {
    if msg.Some? then e[f := msg.value] else e
  }

  /** The branches for `fs`, run one after another on the same map; none is
      skipped because an earlier one fired. */
  function RunBranches(d: Draft, clock: Clock, fs: seq<Field>): (e: map<Field, string>)
    ensures forall f :: f in e <==> f in fs && FieldError(d, clock, f).Some?
    ensures forall f :: f in e ==> e[f] == FieldError(d, clock, f).value
  {
    if fs == [] then map[]
    else
      var f := fs[|fs| - 1];
      Record(RunBranches(d, clock, fs[..|fs| - 1]), f, FieldError(d, clock, f))
  }

  /** `validateForm(formData)`: all eight branches, in the order `validateForm` checks them. The
      result names exactly the fields whose rule fails, each with its message. */
  function ValidateForm(d: Draft, clock: Clock): (e: map<Field, string>)
    ensures forall f :: f in e <==> FieldError(d, clock, f).Some?
    ensures forall f :: f in e ==> e[f] == FieldError(d, clock, f).value
  {
    FieldOrderCovers();
    RunBranches(d, clock, FieldOrder)
  }

  /** The rule a field must satisfy for the form to be sent, stated on the raw
      values: the address well formed, the confirmation present and matching,
      the number a UK number, the start date at least tomorrow, every other
      input filled in. */
  predicate FieldRule(d: Draft, clock: Clock, f: Field) {
    match f
    case FirstName => !IsBlank(d.firstName)
    case ProjectDescription => !IsBlank(d.projectDescription)
    case Email => IsValidEmail(d.email)
    case ConfirmEmail => !IsBlank(d.confirmEmail) && CheckEmails(d.email, d.confirmEmail)
    case Phone => IsValidPhone(d.phone)
    case PreferredContact => d.preferredContact != ""
    case ProjectDate => CheckDate(d.projectDate, clock)
    case Duration => !IsBlank(d.duration)
  }

  /** A well-formed address is never blank. */
  lemma ValidEmailNotBlank(s: string)
    requires IsValidEmail(s)
    ensures !IsBlank(s)
  {
    ValidEmailHasNoSpace(s);
    BlankIffAllSpace(s);
    assert !IsSpace(s[0]);
  }

  /** A well-formed phone number is never blank. */
  lemma ValidPhoneNotBlank(s: string)
    requires IsValidPhone(s)
    ensures !IsBlank(s)
  {
    BlankIffAllSpace(s);
    if AllSpace(s) {
      StripSpacesAllSpace(s);
    }
  }

  /** A field gets a message exactly when its rule fails. */
  lemma FieldErrorIffRuleFails(d: Draft, clock: Clock, f: Field)
    ensures FieldError(d, clock, f).Some? <==> !FieldRule(d, clock, f)
  {
    if IsValidEmail(d.email) { ValidEmailNotBlank(d.email); }
    if IsValidPhone(d.phone) { ValidPhoneNotBlank(d.phone); }
  }

  /** `validateForm` reports exactly the fields whose rule fails. */
  lemma ErrorsAreFailedRules(d: Draft, clock: Clock)
    ensures forall f :: f in ValidateForm(d, clock) <==> !FieldRule(d, clock, f)
  {
    forall f ensures f in ValidateForm(d, clock) <==> !FieldRule(d, clock, f) {
      FieldErrorIffRuleFails(d, clock, f);
    }
  }

  /** The result is empty exactly when every rule passes. */
  lemma ValidIffAllRulesPass(d: Draft, clock: Clock)
    ensures ValidateForm(d, clock) == map[] <==> forall f :: FieldRule(d, clock, f)
  {
    var e := ValidateForm(d, clock);
    ErrorsAreFailedRules(d, clock);
    if e != map[] {
      var f :| f in e;
    }
  }

  /** An empty field gets its prompt, and the prompt is given only to an empty
      field: never the format, mismatch or date message in its place. */
  lemma EmptyFieldGetsPrompt(d: Draft, clock: Clock, f: Field)
    ensures IsEmptyInput(f, d.Get(f)) ==> f in ValidateForm(d, clock) && ValidateForm(d, clock)[f] == Prompt(f)
    ensures f in ValidateForm(d, clock) && ValidateForm(d, clock)[f] == Prompt(f) ==> IsEmptyInput(f, d.Get(f))
  {
  }

  /** Every field of the untouched form is an empty input. */
  lemma EmptyDraftAllEmpty(f: Field)
    ensures IsEmptyInput(f, EmptyDraft.Get(f))
  {
    BlankIffAllSpace("");
  }

  /** The untouched form fails on all eight fields, each with its prompt. */
  lemma InitialDraftErrors(clock: Clock)
    ensures forall f :: f in ValidateForm(EmptyDraft, clock) && ValidateForm(EmptyDraft, clock)[f] == Prompt(f)
    ensures ValidateForm(EmptyDraft, clock).Keys == AllFields
  {
    var e := ValidateForm(EmptyDraft, clock);
    forall f ensures f in e && e[f] == Prompt(f) {
      EmptyDraftAllEmpty(f);
      EmptyFieldGetsPrompt(EmptyDraft, clock, f);
    }
    FieldOrderCovers();
  }

  /** The format check sees the untrimmed address: a non-blank address with
      white space at either end gets the format message. */
  lemma PaddedEmailGetsFormatMessage(d: Draft, clock: Clock)
    requires |d.email| > 0 && !IsBlank(d.email)
    requires IsSpace(d.email[0]) || IsSpace(d.email[|d.email| - 1])
    ensures ValidateForm(d, clock)[Email] == EmailFormat
  {
    if IsValidEmail(d.email) {
      ValidEmailHasNoSpace(d.email);
    }
  }

  /** The confirmation rule only compares the two addresses: once the
      confirmation is filled in, its error is the mismatch message exactly when
      `checkEmails` fails, whether or not the address itself is well formed. */
  lemma ConfirmOnlyCompares(d: Draft, clock: Clock)
    requires !IsBlank(d.confirmEmail)
    ensures ConfirmEmail in ValidateForm(d, clock) <==> !CheckEmails(d.email, d.confirmEmail)
    ensures ConfirmEmail in ValidateForm(d, clock) ==> ValidateForm(d, clock)[ConfirmEmail] == EmailMismatch
  {
    assert FieldError(d, clock, ConfirmEmail) ==
      if CheckEmails(d.email, d.confirmEmail) then None else Some(EmailMismatch);
  }

  /** A malformed address typed twice is reported once, on the address field. */
  lemma MalformedTwiceReportedOnce(d: Draft, clock: Clock)
    requires d.email == d.confirmEmail && !IsBlank(d.email) && !IsValidEmail(d.email)
    ensures ValidateForm(d, clock)[Email] == EmailFormat
    ensures ConfirmEmail !in ValidateForm(d, clock)
  {
    assert FieldError(d, clock, Email) == Some(EmailFormat);
    CheckEmailsEquivalence(d.email, d.email, d.email);
    assert FieldError(d, clock, ConfirmEmail) == None;
  }

  /** Fields are checked independently: editing one field changes no other
      field's outcome, except that the address feeds the confirmation check. */
  lemma FieldsIndependent(d: Draft, clock: Clock, g: Field, v: string, f: Field)
    requires f != g && !(f == ConfirmEmail && g == Email)
    ensures FieldError(d.With(g, v), clock, f) == FieldError(d, clock, f)
  {
    var d' := d.With(g, v);
    assert d'.Get(f) == d.Get(f);
    if f == ConfirmEmail {
      assert d'.Get(Email) == d.Get(Email);
    }
  }
}
