/** Text operations the contact form performs on the strings typed into it.

    A string is a `seq<char>`. The only transformation the form applies is the
    phone field's `replace(/\D/g, "")`: without the `u` flag, `\d` matches exactly
    the ASCII digits '0'..'9', so `\D` matches every other character.
 */
module JsText {

  /** The characters matched by the regular-expression class `\d`. */
  predicate IsDigit(c: char) {
    '0' <= c <= '9'
  }

  /** Every character of `s` is an ASCII digit. */
  predicate AllDigits(s: string) {
    forall i :: 0 <= i < |s| ==> IsDigit(s[i])
  }

  /** `s.replace(/\D/g, "")`: the input with every non-digit removed.
      The result holds only digits. */
  function StripNonDigits(s: string): (r: string)
    ensures AllDigits(r)
    ensures |r| <= |s|
  {
    if s == [] then []
    else if IsDigit(s[0]) then [s[0]] + StripNonDigits(s[1..])
    else StripNonDigits(s[1..])
  }

  /** The strip drops every non-digit and keeps every digit as often as the
      input holds it. */
  lemma {:induction false} StripCounts(s: string)
    ensures forall c :: multiset(StripNonDigits(s))[c] == if IsDigit(c) then multiset(s)[c] else 0
  {
    if s != [] {
      assert s == [s[0]] + s[1..];
      StripCounts(s[1..]);
    }
  }

  /** Peeling one character off the front. */
  lemma StripCons(c: char, s: string)
    ensures StripNonDigits([c] + s) == (if IsDigit(c) then [c] else []) + StripNonDigits(s)
  {
    assert ([c] + s)[1..] == s;
  }

  /** Stripping works piecewise: the digits of `a + b` are the digits of `a`
      followed by the digits of `b`, so the input's digits keep their order. */
  lemma {:induction false} StripConcat(a: string, b: string)
    ensures StripNonDigits(a + b) == StripNonDigits(a) + StripNonDigits(b)
  {
    if a == [] {
      assert a + b == b;
    } else {
      assert (a + b)[0] == a[0];
      assert (a + b)[1..] == a[1..] + b;
      StripConcat(a[1..], b);
    }
  }

  /** The strip leaves a string unchanged exactly when it is already all digits. */
  lemma {:induction false} StripFixpoint(s: string)
    ensures StripNonDigits(s) == s <==> AllDigits(s)
  {
    if s != [] {
      assert AllDigits(s) ==> AllDigits(s[1..]) by {
        if AllDigits(s) {
          forall i | 0 <= i < |s[1..]| ensures IsDigit(s[1..][i]) {
            assert s[1..][i] == s[i + 1];
          }
        }
      }
      StripFixpoint(s[1..]);
      if !IsDigit(s[0]) {
        // The result is no longer than the tail, so it cannot equal `s`.
        assert |StripNonDigits(s)| < |s|;
      }
    }
  }

  /** Stripping twice is the same as stripping once. */
  lemma StripIdempotent(s: string)
    ensures StripNonDigits(StripNonDigits(s)) == StripNonDigits(s)
  {
    StripFixpoint(StripNonDigits(s));
  }
}
