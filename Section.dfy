/** The `ContactSection` component: the form, and the summary dialog that shows
    the last accepted enquiry. */
module Section {
  import opened Enquiry
  import opened Validation
  import opened Form

  /** The address the enquiry is addressed to, shown at the top of the summary. */
  const AstonEmail := "250365979@aston.ac.uk"


  /** The label of a field's line in the summary; the lines follow the order
      in which `validateForm` checks the fields. */
  function Label(f: Field): string {
    match f
    case FirstName => "First Name"
    case ProjectDescription => "Project Description"
    case Email => "Email"
    case ConfirmEmail => "Confirm Email"
    case Phone => "Phone"
    case PreferredContact => "Preferred Contact"
    case ProjectDate => "Project Start Date"
    case Duration => "Project Duration"
  }

  class ContactSection {
    /** The child form. */
    const contactForm: ContactForm
    /** Whether the summary dialog is open. */
    var show: bool
    /** The last accepted enquiry (`null` until the first valid submit). */
    var data: Option<Draft>

    /** The dialog is only ever open on an accepted enquiry. */
    ghost predicate Valid()
      reads this
    {
      show ==> data.Some?
    }

    /** The dialog starts closed and no enquiry is held. */
    constructor ()
      ensures Valid()
      ensures !show && data == None
      ensures fresh(contactForm)
      ensures contactForm.form == EmptyDraft && contactForm.errors == map[]
    {
      contactForm := new ContactForm();
      show := false;
      data := None;
    }

    /** `handleValidSubmit(formData)`: the enquiry is stored, replacing any earlier
        one, and the dialog opens. */
    method HandleValidSubmit(formData: Draft)
      requires Valid()
      modifies this
      ensures Valid()
      ensures data == Some(formData) && show
    {
      data := Some(formData);
      show := true;
    }

    /** `onHide` and the Close button: the dialog closes and the enquiry is kept. */
    method CloseSummary()
      requires Valid()
      modifies this
      ensures Valid()
      ensures !show && data == old(data)
    {
      show := false;
    }

    /** A submit of the child form wired to `handleValidSubmit`: on success the
        dialog opens on exactly the submitted draft; otherwise the dialog and the
        stored enquiry stay as they were. Either way the form shows the fresh
        messages. */
    method Submit(clock: Clock)
      requires Valid()
      modifies this, contactForm
      ensures Valid()
      ensures contactForm.form == old(contactForm.form)
      ensures contactForm.errors == ValidateForm(contactForm.form, clock)
      ensures contactForm.errors == map[] ==> data == Some(contactForm.form) && show
      ensures contactForm.errors != map[] ==> data == old(data) && show == old(show)
    {
      var accepted := contactForm.HandleSubmit(clock);
      if accepted.Some? {
        HandleValidSubmit(accepted.value);
      }
    }

    /** The lines of the summary dialog: the recipient, then one labelled line per
        field of the stored enquiry, which appear only when one is held. */
    function SummaryRows(): (rows: seq<(string, string)>)
      requires Valid()
      reads this
      ensures show ==> |rows| == 9
      ensures |rows| == if data.Some? then 9 else 1
      ensures rows[0] == ("To", AstonEmail)
      ensures data.Some? ==> forall i :: 0 < i < 9 ==>
        rows[i] == (Label(FieldOrder[i - 1]), data.value.Get(FieldOrder[i - 1]))
    {
      var head := [("To", AstonEmail)];
      match data
      case None => head
      case Some(r) => head + seq(8, i requires 0 <= i < 8 => (Label(FieldOrder[i]), r.Get(FieldOrder[i])))
    }
  }
}
