/** The application form controller: a draft lead record edited field by
    field, validated on submission, and frozen once it has been accepted. */
module Application {

  /** The options of the purpose selector; `Unset` is the "Select" entry. */
  datatype Purpose = Unset | Home | Education | Business | Personal

  /** The draft application record. */
  datatype Draft = Draft(name: string, email: string, phone: string, amount: real, purpose: Purpose)

  /** The draft the page starts with and that Reset restores. */
  const EmptyDraft := Draft("", "", "", 50000.0, Unset)

  const MissingContactError := "Please fill in name, email and phone."
  const InvalidAmountError := "Loan amount must be greater than 0."

  /** The three contact fields are all non-empty (no trimming, no format check). */
  predicate HasContact(d: Draft)
  {
    d.name != "" && d.email != "" && d.phone != ""
  }

  /** A draft that passes every submission rule. */
  predicate Complete(d: Draft)
  {
    HasContact(d) && d.amount > 0.0
  }

  /** The result of one submission attempt. */
  datatype Outcome = Accepted | Rejected(reason: string)
  {
    /** The error text the form shows after this outcome; none after acceptance. */
    function Message(): (m: string)
    {
      if Accepted? then "" else reason
    }
  }

  /** The submission rules, first failing rule wins: missing contact details
      are reported before a bad amount. */
  function Validate(d: Draft): (o: Outcome)
    ensures o.Accepted? <==> Complete(d)
    ensures !HasContact(d) ==> o == Rejected(MissingContactError)
    ensures HasContact(d) && d.amount <= 0.0 ==> o == Rejected(InvalidAmountError)
  {
    if !HasContact(d) then Rejected(MissingContactError)
    else if d.amount <= 0.0 then Rejected(InvalidAmountError)
    else Accepted
  }

  /** `part` occurs in `text` starting at index i. */
  predicate OccursAt(text: string, part: string, i: int)
  {
    0 <= i && i + |part| <= |text| && text[i..i + |part|] == part
  }

  /** `part` occurs in `text` as a contiguous piece. */
  ghost predicate Mentions(text: string, part: string)
  {
    exists i :: OccursAt(text, part, i)
  }

  const Greeting := "Thanks, "
  const Fallback := "applicant"

  /** Whom the confirmation addresses: the name, or the fallback for an empty name. */
  function Addressee(d: Draft): (who: string)
  {
    if d.name != "" then d.name else Fallback
  }

  const Middle := ". We'll be in touch at "
  const Separator := " or "
  const Closing := " with the next steps."

  /** The confirmation shown once the application is received. */
  function ConfirmationText(d: Draft): (t: string)
  {
    Greeting + Addressee(d) + Middle + d.email + Separator + d.phone + Closing
  }

  /** A piece appended to a text occurs at the text's old end. */
  lemma OccursAtEnd(pre: string, part: string)
    ensures OccursAt(pre + part, part, |pre|)
  {
    assert (pre + part)[|pre|..|pre| + |part|] == part;
  }

  /** Appending to a text keeps every occurrence in it. */
  lemma OccursExtended(text: string, part: string, i: int, post: string)
    requires OccursAt(text, part, i)
    ensures OccursAt(text + post, part, i)
  {
    assert (text + post)[i..i + |part|] == text[i..i + |part|];
  }

  /** The confirmation addresses the applicant by name whenever the name is
      non-empty (so the fallback is never used for an accepted draft), and it
      always repeats the email address and the phone number. */
  lemma ConfirmationNamesApplicant(d: Draft)
    ensures d.name != "" ==> Greeting + d.name <= ConfirmationText(d)
    ensures d.name != "" ==> Mentions(ConfirmationText(d), d.name)
    ensures d.name == "" ==> Greeting + Fallback <= ConfirmationText(d)
    ensures Mentions(ConfirmationText(d), d.email)
    ensures Mentions(ConfirmationText(d), d.phone)
  {
    var who := Addressee(d);
    var s1 := Greeting + who;
    var s2 := s1 + Middle;
    var s3 := s2 + d.email;
    var s4 := s3 + Separator;
    var s5 := s4 + d.phone;
    var t := s5 + Closing;
    assert t == ConfirmationText(d);
    OccursAtEnd(Greeting, who);
    OccursExtended(s1, who, |Greeting|, Middle);
    OccursExtended(s2, who, |Greeting|, d.email);
    OccursExtended(s3, who, |Greeting|, Separator);
    OccursExtended(s4, who, |Greeting|, d.phone);
    OccursExtended(s5, who, |Greeting|, Closing);
    OccursAtEnd(s2, d.email);
    OccursExtended(s3, d.email, |s2|, Separator);
    OccursExtended(s4, d.email, |s2|, d.phone);
    OccursExtended(s5, d.email, |s2|, Closing);
    OccursAtEnd(s4, d.phone);
    OccursExtended(s5, d.phone, |s4|, Closing);
    assert t[..|s1|] == s1;
  }

  /** The controller: the draft, the submitted flag and the error message. */
  class ApplicationForm {
    var form: Draft
    var submitted: bool
    var error: string

    /** Only a complete draft is ever marked submitted. */
    predicate Valid()
      reads this
    {
      submitted ==> Complete(form)
    }

    /** The state on page load: the empty draft, not submitted, no error. */
    constructor ()
      ensures Valid()
      ensures form == EmptyDraft && !submitted && error == ""
    {
      form := EmptyDraft;
      submitted := false;
      error := "";
    }

    /** Submit the draft: clear the error, then reject missing contact details,
        then reject a non-positive amount, and otherwise mark it submitted.
        The draft itself is never changed. */
    method HandleApply()
      requires Valid()
      modifies this
      ensures Valid()
      ensures form == old(form)
      ensures error == Validate(form).Message()
      ensures submitted == (old(submitted) || Validate(form).Accepted?)
      ensures !HasContact(form) ==> error == MissingContactError && submitted == old(submitted)
      ensures HasContact(form) && form.amount <= 0.0 ==> error == InvalidAmountError && submitted == old(submitted)
      ensures Complete(form) ==> submitted && error == ""
    {
      error := "";
      if form.name == "" || form.email == "" || form.phone == "" {
        error := MissingContactError;
        return;
      }
      if form.amount <= 0.0 {
        error := InvalidAmountError;
        return;
      }
      submitted := true;
    }

    /** Restore the empty draft and clear the error; the submitted flag stays. */
    method Reset()
      requires !submitted
      modifies this
      ensures Valid()
      ensures form == EmptyDraft && error == "" && submitted == old(submitted)
    {
      form := EmptyDraft;
      error := "";
    }

    /** The field editors: each replaces one field of the draft and leaves the
        other fields, the error and the submitted flag as they were. */
    method SetName(value: string)
      requires !submitted
      modifies this
      ensures Valid()
      ensures form == old(form).(name := value) && error == old(error) && submitted == old(submitted)
    {
      form := form.(name := value);
    }

    method SetEmail(value: string)
      requires !submitted
      modifies this
      ensures Valid()
      ensures form == old(form).(email := value) && error == old(error) && submitted == old(submitted)
    {
      form := form.(email := value);
    }

    method SetPhone(value: string)
      requires !submitted
      modifies this
      ensures Valid()
      ensures form == old(form).(phone := value) && error == old(error) && submitted == old(submitted)
    {
      form := form.(phone := value);
    }

    method SetAmount(value: real)
      requires !submitted
      modifies this
      ensures Valid()
      ensures form == old(form).(amount := value) && error == old(error) && submitted == old(submitted)
    {
      form := form.(amount := value);
    }

    method SetPurpose(value: Purpose)
      requires !submitted
      modifies this
      ensures Valid()
      ensures form == old(form).(purpose := value) && error == old(error) && submitted == old(submitted)
    {
      form := form.(purpose := value);
    }

    /** The confirmation shown once submitted: it greets the applicant by the
        submitted name, never by the "applicant" fallback. */
    function Confirmation(): (t: string)
      reads this
      requires Valid() && submitted
      ensures Addressee(form) == form.name
      ensures t == Greeting + form.name + Middle + form.email + Separator + form.phone + Closing
      ensures Greeting + form.name <= t
      ensures Mentions(t, form.name) && Mentions(t, form.email) && Mentions(t, form.phone)
    {
      ConfirmationNamesApplicant(form);
      ConfirmationText(form)
    }
  }

  /** Three sample submissions: a missing name, a zero amount, and an
      accepted application whose confirmation repeats the contact details. */
  method SubmissionWalkthrough()
  {
    var f := new ApplicationForm();
    f.SetEmail("x@y.com");
    f.SetPhone("123");
    f.SetAmount(1000.0);
    f.HandleApply();
    assert f.error == MissingContactError && !f.submitted;

    f.SetName("Jane");
    f.SetEmail("jane@x.com");
    f.SetPhone("1234567890");
    f.SetAmount(0.0);
    f.HandleApply();
    assert f.error == InvalidAmountError && !f.submitted;

    f.Reset();
    assert f.form == EmptyDraft && f.error == "";

    f.SetName("Jane");
    f.SetEmail("jane@x.com");
    f.SetPhone("1234567890");
    f.SetAmount(50000.0);
    f.SetPurpose(Home);
    f.HandleApply();
    assert f.submitted && f.error == "";
    var t := f.Confirmation();
    assert Mentions(t, "Jane") && Mentions(t, "jane@x.com") && Mentions(t, "1234567890");
  }
}
