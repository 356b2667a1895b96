/** The contact-enquiry record the form edits, field by field, as plain strings,
    and the calendar the date rule reads. */
module Enquiry {

  datatype Option<T> = None | Some(value: T)

  /** The eight inputs of the form, by their `name` attribute. */
  datatype Field =
    | FirstName
    | ProjectDescription
    | Email
    | ConfirmEmail
    | Phone
    | PreferredContact
    | ProjectDate
    | Duration

  /** The eight fields in the order the form lists them; `validateForm` checks
      them and the summary shows them in this order. */
  const FieldOrder: seq<Field> :=
    [FirstName, ProjectDescription, Email, ConfirmEmail, Phone, PreferredContact, ProjectDate, Duration]

  const AllFields: set<Field> := set f | f in FieldOrder

  /** Every field is listed. */
  lemma FieldOrderCovers()
    ensures forall f :: f in FieldOrder && f in AllFields
  {
    forall f ensures f in FieldOrder {
      match f
      case FirstName => assert FieldOrder[0] == f;
      case ProjectDescription => assert FieldOrder[1] == f;
      case Email => assert FieldOrder[2] == f;
      case ConfirmEmail => assert FieldOrder[3] == f;
      case Phone => assert FieldOrder[4] == f;
      case PreferredContact => assert FieldOrder[5] == f;
      case ProjectDate => assert FieldOrder[6] == f;
      case Duration => assert FieldOrder[7] == f;
    }
  }

  /** The draft as the form holds it: every value is the input's string. The
      contact select gives "", "email" or "phone"; the date input gives "" or a
      date string. */
  datatype Draft = Draft(
    firstName: string,
    projectDescription: string,
    email: string,
    confirmEmail: string,
    phone: string,
    preferredContact: string,
    projectDate: string,
    duration: string)
  {
    /** The value of one input, `form[name]`. */
    function Get(f: Field): string {
      match f
      case FirstName => firstName
      case ProjectDescription => projectDescription
      case Email => email
      case ConfirmEmail => confirmEmail
      case Phone => phone
      case PreferredContact => preferredContact
      case ProjectDate => projectDate
      case Duration => duration
    }

    /** `{ ...form, [name]: value }`: one input overwritten, the other seven kept. */
    function With(f: Field, value: string): (d: Draft)
      ensures d.Get(f) == value
      ensures forall g :: g != f ==> d.Get(g) == Get(g)
    {
      match f
      case FirstName => this.(firstName := value)
      case ProjectDescription => this.(projectDescription := value)
      case Email => this.(email := value)
      case ConfirmEmail => this.(confirmEmail := value)
      case Phone => this.(phone := value)
      case PreferredContact => this.(preferredContact := value)
      case ProjectDate => this.(projectDate := value)
      case Duration => this.(duration := value)
    }
  }

  /** The form's initial state: every input empty. */
  const EmptyDraft := Draft("", "", "", "", "", "", "", "")

  /** A draft is determined by its eight values. */
  lemma DraftExtensional(a: Draft, b: Draft)
    requires forall f :: a.Get(f) == b.Get(f)
    ensures a == b
  {
    assert a.Get(FirstName) == b.Get(FirstName);
    assert a.Get(ProjectDescription) == b.Get(ProjectDescription);
    assert a.Get(Email) == b.Get(Email);
    assert a.Get(ConfirmEmail) == b.Get(ConfirmEmail);
    assert a.Get(Phone) == b.Get(Phone);
    assert a.Get(PreferredContact) == b.Get(PreferredContact);
    assert a.Get(ProjectDate) == b.Get(ProjectDate);
    assert a.Get(Duration) == b.Get(Duration);
  }

  /** Writing back a field's own value changes nothing; a second write to the
      same field supersedes the first. */
  lemma WithLaws(d: Draft, f: Field, v: string, w: string)
    ensures d.With(f, d.Get(f)) == d
    ensures d.With(f, v).With(f, w) == d.With(f, w)
  {
    DraftExtensional(d.With(f, d.Get(f)), d);
    DraftExtensional(d.With(f, v).With(f, w), d.With(f, w));
  }

  /** What the date rule needs from the browser: the current calendar day, as a
      day number, and the day a date string names (`None` for a string that is
      not a date). Both come from `Date`, which is not part of this model. */
  datatype Clock = Clock(today: int, dayOf: string -> Option<int>)
}
