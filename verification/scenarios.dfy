/** Concrete drafts run through the controller. */
module Scenarios {
  import opened JsText
  import opened Validation
  import opened ContactList
  import opened Controller

  /** A draft with an empty name, an email without '.', and a three-digit
      phone gets an error under each of the three inputs and sends nothing.
      The email "ada@x" is one the browser's own email check lets through, so
      this submit does reach the handler. */
  lemma AllThreeFieldsRejected(st: State, reply: PostReply)
    requires st.form == Form("", "ada@x", "123", "")
    ensures OnSubmit(st, reply).sent == None
    ensures OnSubmit(st, reply).next.errors
            == map[Name := NameRequired, Email := InvalidEmail, Phone := PhoneLength]
  {
  }

  /** The phone filter keeps the six digits of "12-34 56" in order. */
  lemma StripSample()
    ensures StripNonDigits("12-34 56") == "123456"
  {
    // Rebuild the input one character at a time, from the last one back.
    var s0: string := [];
    var s1 := ['6'] + s0; StripCons('6', s0);
    var s2 := ['5'] + s1; StripCons('5', s1);
    var s3 := [' '] + s2; StripCons(' ', s2);
    var s4 := ['4'] + s3; StripCons('4', s3);
    var s5 := ['3'] + s4; StripCons('3', s4);
    var s6 := ['-'] + s5; StripCons('-', s5);
    var s7 := ['2'] + s6; StripCons('2', s6);
    var s8 := ['1'] + s7; StripCons('1', s7);
    assert s8 == "12-34 56";
  }

  /** Typing "12-34 56" into the phone input stores "123456", which is then
      rejected as too short. */
  lemma TypedPhoneStripped(st: State, reply: PostReply)
    ensures OnEdit(st, Phone, "12-34 56").next.form.phone == "123456"
    ensures OnSubmit(OnEdit(st, Phone, "12-34 56").next, reply).next.errors[Phone] == PhoneLength
  {
    StripSample();
  }

  /** The name is not trimmed: a single space passes `validate`. */
  lemma BlankNameAccepted()
    ensures IsValid(Form(" ", "a@b.c", "1234567890", ""))
  {
  }

  /** `validate` checks the phone's length only: ten letters pass it, even
      though no edit can ever put them into the form. */
  lemma LettersPhonePassesValidate()
    ensures IsValid(Form("Ada", "ada@x.com", "abcdefghij", ""))
    ensures !AllDigits("abcdefghij")
  {
    assert !IsDigit("abcdefghij"[0]);
  }

  /** Submitting Ada's details POSTs them unchanged, puts the created contact
      first and clears the form. */
  lemma AdaAdded(contacts: seq<Contact>, errors: Errors, id: string)
    ensures var ada := Form("Ada", "ada@x.com", "1234567890", "");
            var t := OnSubmit(State(ada, errors, contacts),
                              Created(Contact(id, "Ada", "ada@x.com", "1234567890", "")));
            && t.sent == Some(Post(ada))
            && t.next.errors == map[]
            && t.next.form == EmptyForm
            && t.next.contacts[0] == Contact(id, "Ada", "ada@x.com", "1234567890", "")
            && t.next.contacts[1..] == contacts
  {
    var ada := Form("Ada", "ada@x.com", "1234567890", "");
    assert '@' in ada.email by { assert ada.email[3] == '@'; }
    assert '.' in ada.email by { assert ada.email[5] == '.'; }
  }
}
