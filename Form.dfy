/** The `ContactForm` component's state and its two handlers: the draft the
    inputs edit and the error messages shown under them. */
module Form {
  import opened Enquiry
  import opened Validation

  class ContactForm {
    /** The values of the eight inputs. */
    var form: Draft
    /** The messages from the last submit, by field; stale until the next one. */
    var errors: map<Field, string>

    /** Every input starts empty and no message is shown. */
    constructor ()
      ensures form == EmptyDraft && errors == map[]
    {
      form := EmptyDraft;
      errors := map[];
    }

    /** `handleChange`: the input named `name` now holds `value`; the other seven
        inputs and the messages are left as they were. */
    method HandleChange(name: Field, value: string)
      modifies this
      ensures form.Get(name) == value
      ensures forall f :: f != name ==> form.Get(f) == old(form).Get(f)
      ensures form == old(form).With(name, value)
      ensures errors == old(errors)
    {
      form := form.With(name, value);
    }

    /** `handleSubmit`: the messages are replaced by a fresh `validateForm` of the
        draft, and the draft is handed on (`onValidSubmit(form)`) exactly when no
        rule fails. The draft itself is not touched. */
    method HandleSubmit(clock: Clock) returns (accepted: Option<Draft>)
      modifies this
      ensures form == old(form)
      ensures errors == ValidateForm(form, clock)
      ensures accepted.Some? <==> errors == map[]
      ensures accepted.Some? <==> forall f :: FieldRule(form, clock, f)
      ensures accepted.Some? ==> accepted.value == form
    {
      errors := ValidateForm(form, clock);
      ValidIffAllRulesPass(form, clock);
      if |errors| == 0 {
        accepted := Some(form);
      } else {
        accepted := None;
      }
    }
  }
}
