/** The client state controller of frontend/src/App.jsx as a reducer: every
    user action, together with the server's answer to the request it issues,
    is one atomic transition of `(form, errors, contacts)`.

    The network is a parameter. A POST is answered `Created(contact)` when
    `res.ok` holds (the body's `contact` field), `Refused` when it does not, and
    `PostNetworkError` when the `fetch` promise rejects. A DELETE is either
    `Answered(ok)` with any status, or `DeleteNetworkError`. */
module Controller {
  import opened JsText
  import opened Validation
  import opened ContactList

  datatype State = State(form: Form, errors: Errors, contacts: seq<Contact>)

  /** The state when the component mounts, before any list is loaded. */
  const Initial: State := State(EmptyForm, map[], [])

  datatype PostReply = Created(contact: Contact) | Refused | PostNetworkError

  datatype DeleteReply = Answered(ok: bool) | DeleteNetworkError

  /** A request sent to the contact service. */
  datatype Request = Post(body: Form) | Delete(id: string)

  datatype Option<T> = None | Some(value: T)

  /** The next state and the request, if any, that the transition sent. */
  datatype Transition = Transition(next: State, sent: Option<Request>)

  datatype Event =
    | EditField(field: Field, value: string)
    | Submit(answer: PostReply)
    | DeleteContact(id: string, outcome: DeleteReply)

  /** A field's `onChange`: only the form changes, and no request is sent. */
  function OnEdit(st: State, field: Field, value: string): (t: Transition)
    ensures t.sent == None
    ensures t.next.errors == st.errors && t.next.contacts == st.contacts
    ensures Get(t.next.form, field) == if field == Phone then StripNonDigits(value) else value
    ensures forall g :: g != field ==> Get(t.next.form, g) == Get(st.form, g)
  {
    Transition(st.(form := Edit(st.form, field, value)), None)
  }

  /** `handleSubmit`. The error object is always replaced by the one `validate`
      builds. An invalid draft sends nothing. A valid one is POSTed; on
      `res.ok` the returned contact goes in front and the form is cleared,
      otherwise form and list stay as they were. */
  function OnSubmit(st: State, reply: PostReply): (t: Transition)
    ensures t.next.errors == FieldErrors(st.form)
    ensures t.sent.Some? <==> Acceptable(st.form)
    ensures t.sent.Some? ==> t.sent.value == Post(st.form)
    ensures t.sent.None? || !reply.Created? ==> t.next.form == st.form && t.next.contacts == st.contacts
    ensures t.sent.Some? && reply.Created? ==>
              && t.next.form == EmptyForm
              && |t.next.contacts| == |st.contacts| + 1
              && t.next.contacts[0] == reply.contact
              && t.next.contacts[1..] == st.contacts
  {
    var st' := st.(errors := FieldErrors(st.form));
    if !IsValid(st.form) then
      Transition(st', None)
    else
      match reply
      case Created(c) =>
        Transition(st'.(contacts := [c] + st.contacts, form := EmptyForm), Some(Post(st.form)))
      case Refused => Transition(st', Some(Post(st.form)))
      case PostNetworkError => Transition(st', Some(Post(st.form)))
  }

  /** `deleteContact(id)`. The DELETE is always sent. Once it resolves, with
      whatever status, every contact with that `_id` leaves the list; only a
      rejected `fetch` leaves the list as it was. */
  function OnDelete(st: State, id: string, reply: DeleteReply): (t: Transition)
    ensures t.sent == Some(Delete(id))
    ensures t.next.form == st.form && t.next.errors == st.errors
    ensures reply.Answered? ==> t.next.contacts == RemoveById(st.contacts, id)
    ensures reply.Answered? ==> !HasId(t.next.contacts, id)
    ensures reply.Answered? ==>
              forall c :: c in t.next.contacts <==> c in st.contacts && c.id != id
    ensures reply.DeleteNetworkError? ==> t.next.contacts == st.contacts
  {
    match reply
    case Answered(_) => Transition(st.(contacts := RemoveById(st.contacts, id)), Some(Delete(id)))
    case DeleteNetworkError => Transition(st, Some(Delete(id)))
  }

  /** The event dispatcher: the form's `onSubmit`, the inputs' `onChange` and
      each row's Delete button `onClick` run the matching handler. */
  function Step(st: State, ev: Event): Transition {
    match ev
    case EditField(field, value) => OnEdit(st, field, value)
    case Submit(reply) => OnSubmit(st, reply)
    case DeleteContact(id, reply) => OnDelete(st, id, reply)
  }

  /** The state after handling `evs` in order, starting from `st`. */
  function Run(st: State, evs: seq<Event>): State
    decreases |evs|
  {
    if evs == [] then st else Run(Step(st, evs[0]).next, evs[1..])
  }

  /** The requests sent while handling `evs` in order, starting from `st`. */
  function Sent(st: State, evs: seq<Event>): seq<Request>
    decreases |evs|
  {
    if evs == [] then []
    else
      var t := Step(st, evs[0]);
      (if t.sent.Some? then [t.sent.value] else []) + Sent(t.next, evs[1..])
  }

  /** The invariant every reachable state keeps: the phone holds digits only,
      and no error is ever shown under the message box. */
  predicate Inv(st: State) {
    AllDigits(st.form.phone) && Message !in st.errors
  }

  lemma StepKeepsInv(st: State, ev: Event)
    requires Inv(st)
    ensures Inv(Step(st, ev).next)
  {
  }

  lemma {:induction false} RunKeepsInv(st: State, evs: seq<Event>)
    requires Inv(st)
    ensures Inv(Run(st, evs))
    decreases |evs|
  {
    if evs != [] {
      StepKeepsInv(st, evs[0]);
      RunKeepsInv(Step(st, evs[0]).next, evs[1..]);
    }
  }

  /** Every state reachable from the initial one has a digits-only phone. */
  lemma ReachableInv(evs: seq<Event>)
    ensures Inv(Run(Initial, evs))
  {
    RunKeepsInv(Initial, evs);
  }

  /** No draft that fails the contact rules is ever POSTed from a state that
      keeps the invariant: every request body is a well-formed contact. */
  lemma {:induction false} PostedBodiesWellFormed(st: State, evs: seq<Event>)
    requires Inv(st)
    ensures forall r :: r in Sent(st, evs) && r.Post? ==> WellFormedContact(r.body)
    decreases |evs|
  {
    if evs != [] {
      var t := Step(st, evs[0]);
      StepKeepsInv(st, evs[0]);
      PostedBodiesWellFormed(t.next, evs[1..]);
      if t.sent.Some? && t.sent.value.Post? {
        assert evs[0].Submit?;
        ValidDigitsWellFormed(st.form);
      }
    }
  }

  /** Handling one more event in front of a run. */
  lemma RunCons(st: State, evs: seq<Event>, i: nat)
    requires 0 <= i < |evs|
    ensures Run(st, evs[..i + 1]) == Run(Step(st, evs[0]).next, evs[1..][..i])
  {
    assert evs[..i + 1][0] == evs[0];
    assert evs[..i + 1][1..] == evs[1..][..i];
  }

  /** Every contact on the list was there at the start or was returned by the
      server for a POST that was actually sent: some submit among the events
      was answered `Created(c)` while the draft passed `validate`. */
  lemma {:induction false} ContactsProvenance(st: State, evs: seq<Event>, c: Contact)
    requires c in Run(st, evs).contacts
    ensures || c in st.contacts
            || exists i :: 0 <= i < |evs| && evs[i] == Submit(Created(c)) && Acceptable(Run(st, evs[..i]).form)
    decreases |evs|
  {
    if evs != [] {
      var t := Step(st, evs[0]);
      ContactsProvenance(t.next, evs[1..], c);
      if c in t.next.contacts && c !in st.contacts {
        assert evs[0] == Submit(Created(c)) && Acceptable(st.form);
        assert evs[..0] == [];
        assert Run(st, evs[..0]) == st;
      } else if c !in t.next.contacts {
        var i :| 0 <= i < |evs[1..]| && evs[1..][i] == Submit(Created(c))
                 && Acceptable(Run(t.next, evs[1..][..i]).form);
        RunCons(st, evs, i);
        assert evs[i + 1] == Submit(Created(c)) && Acceptable(Run(st, evs[..i + 1]).form);
      }
    }
  }

  /** Adding a contact the server created with a fresh identifier and then
      deleting it brings the list back to what it was. */
  lemma AddThenDelete(st: State, c: Contact, ok: bool)
    requires Acceptable(st.form)
    requires !HasId(st.contacts, c.id)
    ensures OnDelete(OnSubmit(st, Created(c)).next, c.id, Answered(ok)).next.contacts == st.contacts
  {
    PrependThenRemove(c, st.contacts);
  }

  /** The status of a resolved DELETE is never consulted. */
  lemma DeleteIgnoresStatus(st: State, id: string)
    ensures OnDelete(st, id, Answered(true)) == OnDelete(st, id, Answered(false))
  {
  }

  /** A refused POST and a failed network call leave the same state. */
  lemma RefusedLikeNetworkError(st: State)
    ensures OnSubmit(st, Refused) == OnSubmit(st, PostNetworkError)
  {
  }

  /** Submitting is idempotent on an invalid draft: a second submit sees the
      same draft and builds the same errors. */
  lemma InvalidSubmitStable(st: State, r1: PostReply, r2: PostReply)
    requires !Acceptable(st.form)
    ensures OnSubmit(OnSubmit(st, r1).next, r2) == OnSubmit(st, r1)
  {
  }
}
