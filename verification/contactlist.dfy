/** The `contacts` state: the ordered list of contacts shown in the table,
    each identified by its `_id`. A contact added in this session goes in
    front; the loaded list keeps the server's order. */
module ContactList {

  /** A contact as the server returns it. The `_id` is opaque to the client. */
  datatype Contact = Contact(id: string, name: string, email: string, phone: string, message: string)

  /** Some element of `cs` carries the identifier `id`. */
  predicate HasId(cs: seq<Contact>, id: string) {
    exists i :: 0 <= i < |cs| && cs[i].id == id
  }

  /** `prev.filter((c) => c._id !== id)`: the list without every contact whose
      identifier is `id`. */
  function RemoveById(cs: seq<Contact>, id: string): (r: seq<Contact>)
    ensures forall c :: c in r <==> c in cs && c.id != id
    ensures !HasId(r, id)
    ensures |r| <= |cs|
  {
    if cs == [] then []
    else if cs[0].id != id then [cs[0]] + RemoveById(cs[1..], id)
    else RemoveById(cs[1..], id)
  }

  /** Every contact with another identifier survives as often as it occurred. */
  lemma {:induction false} RemoveCounts(cs: seq<Contact>, id: string)
    ensures forall c :: multiset(RemoveById(cs, id))[c] == if c.id == id then 0 else multiset(cs)[c]
  {
    if cs != [] {
      assert cs == [cs[0]] + cs[1..];
      RemoveCounts(cs[1..], id);
    }
  }

  /** The filter works piecewise, so the surviving contacts keep their relative
      order. */
  lemma {:induction false} RemoveConcat(a: seq<Contact>, b: seq<Contact>, id: string)
    ensures RemoveById(a + b, id) == RemoveById(a, id) + RemoveById(b, id)
  {
    if a == [] {
      assert a + b == b;
    } else {
      assert (a + b)[0] == a[0];
      assert (a + b)[1..] == a[1..] + b;
      RemoveConcat(a[1..], b, id);
    }
  }

  /** Deleting an identifier that is not in the list leaves it unchanged, and
      only then: a list the filter does not change has no such identifier. */
  lemma {:induction false} RemoveAbsent(cs: seq<Contact>, id: string)
    ensures RemoveById(cs, id) == cs <==> !HasId(cs, id)
  {
    if cs != [] {
      assert !HasId(cs, id) ==> !HasId(cs[1..], id) by {
        if HasId(cs[1..], id) {
          var i :| 0 <= i < |cs[1..]| && cs[1..][i].id == id;
          assert cs[i + 1].id == id;
        }
      }
      RemoveAbsent(cs[1..], id);
      if cs[0].id == id {
        assert |RemoveById(cs, id)| < |cs|;
      }
    }
  }

  /** Deleting the same identifier twice is the same as deleting it once. */
  lemma RemoveIdempotent(cs: seq<Contact>, id: string)
    ensures RemoveById(RemoveById(cs, id), id) == RemoveById(cs, id)
  {
    RemoveAbsent(RemoveById(cs, id), id);
  }

  /** Deletes of two identifiers commute. */
  lemma {:induction false} RemoveCommutes(cs: seq<Contact>, id1: string, id2: string)
    ensures RemoveById(RemoveById(cs, id1), id2) == RemoveById(RemoveById(cs, id2), id1)
  {
    if cs != [] {
      RemoveCommutes(cs[1..], id1, id2);
    }
  }

  /** Deleting the identifier of a contact just put in front of a list that
      did not contain that identifier gives back the original list. */
  lemma PrependThenRemove(c: Contact, cs: seq<Contact>)
    requires !HasId(cs, c.id)
    ensures RemoveById([c] + cs, c.id) == cs
  {
    assert ([c] + cs)[1..] == cs;
    RemoveAbsent(cs, c.id);
  }
}
