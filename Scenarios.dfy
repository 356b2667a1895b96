/** Two complete enquiries taken through the form and the summary dialog: one
    that is accepted, and the same one with a confirmation that does not match. */
module Scenarios {
  import opened Text
  import opened Enquiry
  import opened Rules
  import opened Validation
  import opened Form
  import opened Section

  /** A correctly filled-in enquiry; `tomorrow` is the date input's string for
      the day after today. */
  function SampleDraft(tomorrow: string): Draft {
    Draft("Karim", "Build a site", "a@b.com", "A@B.com", "07123456789", "email", tomorrow, "2 weeks")
  }

  /** The sample address is well formed. */
  lemma SampleEmailValid()
    ensures IsValidEmail("a@b.com")
  {
    AddressFromParts("a", "b", "com");
    assert "a" + "@" + "b" + "." + "com" == "a@b.com";
  }

  /** The sample confirmation differs from the address only in case. */
  lemma SampleConfirmMatches()
    ensures CheckEmails("a@b.com", "A@B.com")
  {
    var a, b := "a@b.com", "A@B.com";
    assert ToLower(a) == ToLower(b) by {
      forall i | 0 <= i < |a| ensures ToLower(a)[i] == ToLower(b)[i] {
      }
    }
    CheckEmailsIgnoresCase(a, b);
  }

  /** The sample address and "different@b.com" still differ once trimmed and
      lower-cased. */
  lemma DifferentConfirmMismatches()
    ensures !CheckEmails("a@b.com", "different@b.com")
  {
    TrimKeepsVisibleEnds("a@b.com");
    TrimKeepsVisibleEnds("different@b.com");
  }

  /** The eight rules, field by field, are all `validateForm` looks at. */
  lemma NoErrorsFromRules(d: Draft, clock: Clock)
    requires FieldRule(d, clock, FirstName) && FieldRule(d, clock, ProjectDescription)
    requires FieldRule(d, clock, Email) && FieldRule(d, clock, ConfirmEmail)
    requires FieldRule(d, clock, Phone) && FieldRule(d, clock, PreferredContact)
    requires FieldRule(d, clock, ProjectDate) && FieldRule(d, clock, Duration)
    ensures ValidateForm(d, clock) == map[]
  {
    forall f ensures FieldRule(d, clock, f) {
    }
    ValidIffAllRulesPass(d, clock);
  }

  /** The sample's name, description, duration, contact choice and date pass. */
  lemma SamplePlainFieldsPass(clock: Clock, tomorrow: string)
    requires tomorrow != "" && clock.dayOf(tomorrow) == Some(clock.today + 1)
    ensures FieldRule(SampleDraft(tomorrow), clock, FirstName)
    ensures FieldRule(SampleDraft(tomorrow), clock, ProjectDescription)
    ensures FieldRule(SampleDraft(tomorrow), clock, PreferredContact)
    ensures FieldRule(SampleDraft(tomorrow), clock, ProjectDate)
    ensures FieldRule(SampleDraft(tomorrow), clock, Duration)
  {
    VisibleStartNotBlank("Karim");
    VisibleStartNotBlank("Build a site");
    VisibleStartNotBlank("2 weeks");
  }

  /** The sample's address, confirmation and phone number pass. */
  lemma SampleContactFieldsPass(clock: Clock, tomorrow: string)
    ensures FieldRule(SampleDraft(tomorrow), clock, Email)
    ensures FieldRule(SampleDraft(tomorrow), clock, ConfirmEmail)
    ensures FieldRule(SampleDraft(tomorrow), clock, Phone)
  {
    SampleEmailValid();
    VisibleStartNotBlank("A@B.com");
    SampleConfirmMatches();
    DocumentedPhonesAccepted();
  }

  /** Every rule passes on the sample enquiry, so `validateForm` reports nothing. */
  lemma SampleDraftValid(clock: Clock, tomorrow: string)
    requires tomorrow != "" && clock.dayOf(tomorrow) == Some(clock.today + 1)
    ensures ValidateForm(SampleDraft(tomorrow), clock) == map[]
  {
    SamplePlainFieldsPass(clock, tomorrow);
    SampleContactFieldsPass(clock, tomorrow);
    NoErrorsFromRules(SampleDraft(tomorrow), clock);
  }

  /** An accepted draft whose confirmation is changed to a non-blank address
      that does not match fails on the confirmation alone, with the mismatch
      message. */
  lemma OnlyConfirmFails(d: Draft, clock: Clock, v: string)
    requires ValidateForm(d, clock) == map[]
    requires !IsBlank(v) && !CheckEmails(d.email, v)
    ensures ValidateForm(d.With(ConfirmEmail, v), clock) == map[ConfirmEmail := EmailMismatch]
  {
    var d' := d.With(ConfirmEmail, v);
    var e := ValidateForm(d', clock);
    forall f | f != ConfirmEmail ensures f !in e {
      FieldsIndependent(d, clock, ConfirmEmail, v, f);
    }
    assert d'.email == d.email && d'.confirmEmail == v;
    ConfirmOnlyCompares(d', clock);
    assert e == map[ConfirmEmail := EmailMismatch];
  }

  /** "different@b.com" is a non-blank confirmation the sample address does
      not match. */
  lemma SampleWrongConfirm(tomorrow: string)
    ensures !IsBlank("different@b.com") && !CheckEmails(SampleDraft(tomorrow).email, "different@b.com")
  {
    VisibleStartNotBlank("different@b.com");
    DifferentConfirmMismatches();
  }

  /** The visitor types `d` into the eight inputs of an untouched form, one
      `handleChange` per input. */
  method FillIn(form: ContactForm, d: Draft)
    requires form.form == EmptyDraft
    modifies form
    ensures form.form == d && form.errors == old(form.errors)
  {
    form.HandleChange(FirstName, d.firstName);
    form.HandleChange(ProjectDescription, d.projectDescription);
    form.HandleChange(Email, d.email);
    form.HandleChange(ConfirmEmail, d.confirmEmail);
    form.HandleChange(Phone, d.phone);
    form.HandleChange(PreferredContact, d.preferredContact);
    form.HandleChange(ProjectDate, d.projectDate);
    form.HandleChange(Duration, d.duration);
  }

  /** The page as a visitor uses it: type an acceptable enquiry `d` into the
      eight inputs and submit it; the dialog opens on exactly that enquiry. Then
      close the dialog, change the confirmation to a non-matching `wrong` and
      submit again: only the mismatch is reported, the dialog stays closed and
      the enquiry accepted first is still the one held. */
  method VisitorSession(clock: Clock, d: Draft, wrong: string)
    returns (s: ContactSection, shownFirst: bool)
    requires ValidateForm(d, clock) == map[]
    requires !IsBlank(wrong) && !CheckEmails(d.email, wrong)
    ensures shownFirst
    ensures s.contactForm.form == d.With(ConfirmEmail, wrong)
    ensures s.contactForm.errors == map[ConfirmEmail := EmailMismatch]
    ensures !s.show && s.data == Some(d)
  {
    s := new ContactSection();
    FillIn(s.contactForm, d);
    s.Submit(clock);
    shownFirst := s.show;

    s.CloseSummary();
    s.contactForm.HandleChange(ConfirmEmail, wrong);
    OnlyConfirmFails(d, clock, wrong);
    s.Submit(clock);
    assert ConfirmEmail in s.contactForm.errors;
  }

  /** The two sample sessions: the enquiry is accepted, and with the confirmation
      "different@b.com" only the mismatch is reported. */
  method SampleSession(clock: Clock, tomorrow: string) returns (s: ContactSection, shownFirst: bool)
    requires tomorrow != "" && clock.dayOf(tomorrow) == Some(clock.today + 1)
    ensures shownFirst && s.contactForm.errors == map[ConfirmEmail := EmailMismatch]
      && !s.show && s.data == Some(SampleDraft(tomorrow))
  {
    SampleDraftValid(clock, tomorrow);
    SampleWrongConfirm(tomorrow);
    s, shownFirst := VisitorSession(clock, SampleDraft(tomorrow), "different@b.com");
  }
}
