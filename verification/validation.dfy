/** The contact form and its client-side validator (`validate` in
    frontend/src/App.jsx). */
module Validation {
  import opened JsText

  /** The four inputs of the form. Only the first three can carry an error. */
  datatype Field = Name | Email | Phone | Message

  /** The pending contact draft held in the `form` state. */
  datatype Form = Form(name: string, email: string, phone: string, message: string)

  /** The form's initial value and the value it is reset to after a successful add. */
  const EmptyForm: Form := Form("", "", "", "")

  /** The `errors` state: field name to the message shown under that input. */
  type Errors = map<Field, string>

  const NameRequired: string := "Name is required"
  const InvalidEmail: string := "Invalid email"
  const PhoneRequired: string := "Phone number is required"
  const PhoneLength: string := "Phone number must be 10\U{2013}15 digits"

  /** Reads one field of the form by name. */
  function Get(f: Form, field: Field): string {
    match field
    case Name => f.name
    case Email => f.email
    case Phone => f.phone
    case Message => f.message
  }

  /** The error object `validate` builds, one test after another as the source
      does. `!s` on a string is the emptiness test; `includes` of a one-character
      string is membership of that character. There is no trimming and no check
      that the phone consists of digits. */
  function FieldErrors(f: Form): (errs: Errors)
    ensures Name in errs <==> f.name == ""
    ensures Email in errs <==> '@' !in f.email || '.' !in f.email
    ensures Phone in errs <==> !(10 <= |f.phone| <= 15)
    ensures Message !in errs
    ensures Name in errs ==> errs[Name] == NameRequired
    ensures Email in errs ==> errs[Email] == InvalidEmail
    ensures Phone in errs && f.phone == "" ==> errs[Phone] == PhoneRequired
    ensures Phone in errs && f.phone != "" ==> errs[Phone] == PhoneLength
  {
    var errs0: Errors := map[];
    var errs1 := if f.name == "" then errs0[Name := NameRequired] else errs0;
    var errs2 :=
      if f.email == "" || '@' !in f.email || '.' !in f.email
      then errs1[Email := InvalidEmail] else errs1;
    if f.phone == "" then errs2[Phone := PhoneRequired]
    else if |f.phone| < 10 || |f.phone| > 15 then errs2[Phone := PhoneLength]
    else errs2
  }

  /** The rule a draft must meet before it may be sent, stated independently of
      how `validate` assembles its error object. */
  predicate Acceptable(f: Form) {
    && f.name != ""
    && '@' in f.email
    && '.' in f.email
    && 10 <= |f.phone| <= 15
  }

  /** The verdict `validate` returns: whether its error object has no keys. */
  function IsValid(f: Form): (ok: bool)
    ensures ok <==> FieldErrors(f) == map[]
    ensures ok <==> Acceptable(f)
  {
    |FieldErrors(f)| == 0
  }

  /** A well-formed contact: an accepted draft whose phone is, in addition,
      made of digits only. */
  predicate WellFormedContact(f: Form) {
    Acceptable(f) && AllDigits(f.phone)
  }

  /** `validate` checks the phone's length only. On a draft whose phone holds
      digits only (which every reachable state has, `Controller.ReachableInv`),
      passing `validate` is the same as being a well-formed contact. */
  lemma ValidDigitsWellFormed(f: Form)
    requires AllDigits(f.phone)
    ensures IsValid(f) <==> WellFormedContact(f)
  {
  }

  /** The emptiness test on the email is subsumed by the two `includes` tests. */
  lemma EmailEmptinessRedundant(f: Form)
    requires f.email == ""
    ensures Email in FieldErrors(f)
  {
  }

  /** Applies the per-field `onChange` handler to the form. The phone handler
      strips non-digits; the others store the typed text unchanged. */
  function Edit(f: Form, field: Field, value: string): (r: Form)
    ensures Get(r, field) == if field == Phone then StripNonDigits(value) else value
    ensures forall g :: g != field ==> Get(r, g) == Get(f, g)
  {
    match field
    case Name => f.(name := value)
    case Email => f.(email := value)
    case Phone => f.(phone := StripNonDigits(value))
    case Message => f.(message := value)
  }

  /** The phone input is controlled: feeding it back the value it shows, a
      digits-only phone, changes nothing. */
  lemma EditPhoneWithStoredValue(f: Form)
    requires AllDigits(f.phone)
    ensures Edit(f, Phone, f.phone) == f
  {
    StripFixpoint(f.phone);
  }

  /** After any edit the phone is all digits, whenever it was before. */
  lemma EditKeepsPhoneDigits(f: Form, field: Field, value: string)
    requires AllDigits(f.phone)
    ensures AllDigits(Edit(f, field, value).phone)
  {
  }
}
