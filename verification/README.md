# Contact manager: client state controller

A Dafny model of the client-side controller of a small contact-management web
application (`frontend/src/App.jsx`). With React, `fetch` and toast
notifications stripped away, the controller is a reducer over the state
`(form, errors, contacts)`:

- `form` is the pending draft `{name, email, phone, message}` (`Validation.Form`);
- `errors` maps a field to the message shown under its input (`Validation.Errors`);
- `contacts` is the ordered list shown in the table, each contact carrying the
  server-assigned `_id` (`ContactList.Contact`); a contact added in this
  session goes in front (frontend/src/App.jsx:70), and the loaded list keeps
  the server's order.

The events are a field edit (the phone edit strips every non-digit), a submit
and a delete. The server's answer is a parameter of the transition: a POST is
answered `Created(contact)` (`res.ok` and the body's `contact`), `Refused`
(`!res.ok`) or `PostNetworkError` (the `fetch` promise rejects, so the handler
stops after `validate` has replaced the errors, before touching the form or the
list); a DELETE is `Answered(ok)` with any status, or
`DeleteNetworkError`. Each transition also reports the request it sent, so
"no request is issued" is a checkable statement.

Files:

- `jstext.dfy` (`JsText`): the phone input's `replace(/\D/g, "")`.
- `validation.dfy` (`Validation`): the form, `validate`, and the per-field edits.
- `contactlist.dfy` (`ContactList`): the contact list and the filter by `_id`.
- `controller.dfy` (`Controller`): the transitions for edit, submit and delete,
  runs of events, and the invariants of reachable states.
- `scenarios.dfy` (`Scenarios`): concrete drafts run through the controller.

Facts about the code that the model keeps as they are:

- The name check is plain emptiness, with no trimming, so a name of one space
  passes (`Scenarios.BlankNameAccepted`).
- A resolved DELETE filters the list whatever its status
  (`Controller.DeleteIgnoresStatus`). Only a rejected `fetch` keeps the list.
- There are no in-flight flags, so duplicate submits are not suppressed; the
  model has none either, but its atomic events cannot show the overlap (see
  "## Left out").
- `validate` checks the phone's length, not its characters; the digits-only
  guarantee comes from the phone input handler alone, and the model proves it
  as an invariant of every reachable state (`Controller.ReachableInv`).

`Controller.Step` is the event dispatcher: the form's `onSubmit`
(frontend/src/App.jsx:91), the inputs' `onChange` handlers
(frontend/src/App.jsx:103-155) and each row's Delete button `onClick`
(frontend/src/App.jsx:188) run `OnSubmit`, `OnEdit` and `OnDelete`.
`Controller.Run` and `Controller.Sent` fold it over a sequence of events.

## Model

| member | source | states |
|---|---|---|
| `JsText.StripNonDigits` | frontend/src/App.jsx:139 | the stored phone contains only the characters '0'..'9' and is never longer than what was typed |
| `JsText.StripCounts` | frontend/src/App.jsx:139 | every non-digit is removed and every digit is kept exactly as many times as the input holds it |
| `JsText.StripConcat` | frontend/src/App.jsx:139 | stripping `a + b` gives the digits of `a` followed by the digits of `b`: the digits keep their original order |
| `JsText.StripCons` | frontend/src/App.jsx:139 | a leading character survives the strip exactly when it is a digit |
| `JsText.StripFixpoint` | frontend/src/App.jsx:139 | the strip leaves a string unchanged if and only if it is all digits |
| `JsText.StripIdempotent` | frontend/src/App.jsx:139 | stripping twice equals stripping once |
| `Validation.FieldErrors` | frontend/src/App.jsx:28-43 | `name` has an error iff the name is empty; `email` iff it lacks '@' or lacks '.' (in any order); `phone` iff its length is outside 10..15, with the "required" message when empty and the "10–15 digits" message otherwise; never an error for `message` |
| `Validation.IsValid` | frontend/src/App.jsx:45-47 | `validate` returns true exactly when the error object it stores is empty, and exactly when the name is non-empty, the email holds '@' and '.', and the phone has 10 to 15 characters |
| `Validation.ValidDigitsWellFormed` | frontend/src/App.jsx:39-43 | for a digits-only phone, passing `validate` is the same as being a well-formed contact (digits only, 10 to 15 of them) |
| `Validation.EmailEmptinessRedundant` | frontend/src/App.jsx:34 | an empty email is already caught by the missing '@' |
| `Validation.Edit` | frontend/src/App.jsx:103-155 | editing a field stores the typed text in that field (the phone stripped of non-digits) and leaves the other three fields unchanged |
| `Validation.EditPhoneWithStoredValue` | frontend/src/App.jsx:137-140 | feeding the phone input the digits-only value it already shows leaves the form unchanged, because the filter keeps an all-digit string as it is |
| `Validation.EditKeepsPhoneDigits` | frontend/src/App.jsx:138-140 | after any edit the phone holds digits only, if it did before |
| `ContactList.RemoveById` | frontend/src/App.jsx:79 | a contact survives the delete iff it was in the list and its `_id` differs from the deleted one; no contact with that `_id` remains |
| `ContactList.RemoveCounts` | frontend/src/App.jsx:79 | every contact with another `_id` survives as many times as it occurred |
| `ContactList.RemoveConcat` | frontend/src/App.jsx:79 | the filter works piecewise, so the remaining contacts keep their relative order |
| `ContactList.RemoveAbsent` | frontend/src/App.jsx:79 | deleting an `_id` leaves the list unchanged if and only if no contact carries it |
| `ContactList.RemoveIdempotent` | frontend/src/App.jsx:79 | deleting the same `_id` twice equals deleting it once |
| `ContactList.RemoveCommutes` | frontend/src/App.jsx:79 | two deletes whose requests resolve in either order leave the same list |
| `ContactList.PrependThenRemove` | frontend/src/App.jsx:70-79 | prepending a contact with a fresh `_id` and then deleting that `_id` restores the list |
| `Controller.OnEdit` | frontend/src/App.jsx:103-155 | an edit changes only the edited field of the form, keeps errors and contacts, and sends no request |
| `Controller.OnSubmit` | frontend/src/App.jsx:51-72 | the error object is replaced wholesale by the one `validate` builds; an invalid draft sends nothing and keeps form and list; a valid draft is POSTed unchanged; on `res.ok` the returned contact becomes element 0, the old list follows in order and the form is reset to four empty strings; otherwise form and list are unchanged |
| `Controller.OnDelete` | frontend/src/App.jsx:74-80 | the DELETE is always sent and form and errors are kept; once it resolves, with any status, the list is the old list filtered by `_id`; a rejected `fetch` keeps the list |
| `Controller.StepKeepsInv` | frontend/src/App.jsx:138-140 | every transition keeps the phone digits-only and keeps `message` out of the error object |
| `Controller.RunKeepsInv` | frontend/src/App.jsx:138-140 | any sequence of events keeps that invariant |
| `Controller.ReachableInv` | frontend/src/App.jsx:7-14 | every state reachable from the mount-time state satisfies that invariant |
| `Controller.PostedBodiesWellFormed` | frontend/src/App.jsx:51-59 | from a state satisfying `Controller.Inv` (digits-only phone, no `message` error), every POSTed body is a well-formed contact: non-empty name, email with '@' and '.', 10 to 15 digits |
| `Controller.ContactsProvenance` | frontend/src/App.jsx:70-79 | every listed contact was there at the start or was returned as `Created(c)` for a submit whose draft passed `validate` at that point of the run, so the POST was actually sent |
| `Controller.AddThenDelete` | frontend/src/App.jsx:61-79 | adding a contact with a fresh `_id` and then deleting it restores the list |
| `Controller.DeleteIgnoresStatus` | frontend/src/App.jsx:74-79 | the status of a resolved DELETE is never consulted |
| `Controller.RefusedLikeNetworkError` | frontend/src/App.jsx:55-64 | a refused POST and a failed network call leave the same state |
| `Controller.InvalidSubmitStable` | frontend/src/App.jsx:53 | submitting an invalid draft again changes nothing further |
| `Scenarios.AllThreeFieldsRejected` | frontend/src/App.jsx:28-53 | the draft `{name: "", email: "ada@x", phone: "123"}` gets errors under name, email and phone and sends nothing |
| `Scenarios.StripSample` | frontend/src/App.jsx:139 | the typed phone "12-34 56" is stored as "123456" |
| `Scenarios.TypedPhoneStripped` | frontend/src/App.jsx:39-43 | that six-digit phone is then rejected with the "10–15 digits" message |
| `Scenarios.BlankNameAccepted` | frontend/src/App.jsx:30 | a name of one space passes `validate`: there is no trimming |
| `Scenarios.LettersPhonePassesValidate` | frontend/src/App.jsx:41 | `validate` alone accepts a ten-letter phone: only the length is checked |
| `Scenarios.AdaAdded` | frontend/src/App.jsx:51-72 | submitting Ada's details POSTs them unchanged, clears the errors and the form, and lists the created contact first |

## Left out

- The mount-time `fetchContacts` (frontend/src/App.jsx:17-26): it replaces the list with whatever the server returns, with no error handling; there is nothing to state beyond the assignment. The model starts from the mount state with an empty list.
- backend/index.js: HTTP framework, CORS and configuration wiring, the database connection and a constant health-check route. The contact routes and database modules it imports are not part of this model, so no server-side validation, identifier assignment or ordering is modelled.
- `fetch`, JSON encoding and decoding, and the backend URL: replaced by the reply parameters. A successful response whose body cannot be parsed would throw after `validate` has replaced the errors but before the form or the list changes; the model's `Created` reply stands for a parseable body that carries a `contact` field. A body without that field would prepend `undefined` (frontend/src/App.jsx:70), and rendering would then fail on its `_id` (frontend/src/App.jsx:182); the model does not cover that.
- Toast notifications, JSX rendering and styling: presentation only.
- The browser's own check of the `type='email'` input (frontend/src/App.jsx:115; the form at frontend/src/App.jsx:90 has no `noValidate`): a non-empty email the browser does not take for an address cancels the submit before `handleSubmit` runs, leaving the old errors on screen, and the browser also strips newlines and surrounding whitespace from the value. The model assumes every submit reaches `handleSubmit` and stores the email as typed.
- Asynchronous interleaving and React's batching: each event is one atomic transition. In particular an edit made while a POST is in flight, which the source's form reset would overwrite, is not modelled. Nor is a double submit: two clicks before the first POST resolves send the same draft twice, and if both succeed the list gains two contacts; in the model the first successful submit clears the form, so a second one fails `validate`.
- String lengths count Dafny characters, whereas JavaScript's `length` counts UTF-16 code units. They agree on every phone the controller can hold, since it holds ASCII digits only (`Controller.ReachableInv`).
