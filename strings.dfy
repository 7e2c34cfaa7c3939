/** Go's `strings.Contains`, the substring test behind the enumeration filter. */
module Strings {

  /** `sub` occurs in `s` starting at position i. */
  predicate OccursAt(s: string, sub: string, i: int) {
    0 <= i && i + |sub| <= |s| && s[i..i + |sub|] == sub
  }

  /** Searches from the front: true as soon as `sub` is a prefix of what is
      left of `s`, false once fewer than |sub| characters remain. */
  predicate Contains(s: string, sub: string)
    decreases |s|
  {
    if |s| < |sub| then false
    else if s[..|sub|] == sub then true
    else Contains(s[1..], sub)
  }

  /** The search finds `sub` exactly when it occurs at some position. */
  lemma {:induction false} ContainsIffOccurs(s: string, sub: string)
    ensures Contains(s, sub) <==> exists i :: OccursAt(s, sub, i)
    decreases |s|
  {
    if |s| < |sub| {
    } else if s[..|sub|] == sub {
      assert OccursAt(s, sub, 0);
    } else {
      ContainsIffOccurs(s[1..], sub);
      if exists i :: OccursAt(s[1..], sub, i) {
        var i :| OccursAt(s[1..], sub, i);
        assert s[1..][i..i + |sub|] == s[i + 1..i + 1 + |sub|];
        assert OccursAt(s, sub, i + 1);
      }
      if exists i :: OccursAt(s, sub, i) {
        var i :| OccursAt(s, sub, i);
        assert i != 0;
        assert s[1..][i - 1..i - 1 + |sub|] == s[i..i + |sub|];
        assert OccursAt(s[1..], sub, i - 1);
      }
    }
  }

  /** Whatever starts with `sub` contains it, whatever follows. */
  lemma ContainsPrefixed(sub: string, rest: string)
    ensures Contains(sub + rest, sub)
  {
    assert (sub + rest)[..|sub|] == sub;
  }

  /** A string without the first character of `sub` cannot contain `sub`. */
  lemma {:induction false} MissingFirstChar(s: string, sub: string)
    requires |sub| > 0
    requires forall i :: 0 <= i < |s| ==> s[i] != sub[0]
    ensures !Contains(s, sub)
    decreases |s|
  {
    if |s| >= |sub| {
      assert s[..|sub|][0] != sub[0];
      MissingFirstChar(s[1..], sub);
    }
  }

  /** A string shorter than `sub` cannot contain it. */
  lemma ShorterNeverContains(s: string, sub: string)
    requires |s| < |sub|
    ensures !Contains(s, sub)
  {
  }

  /** Whatever surrounds `sub`, the result contains it. */
  lemma ContainsInside(pre: string, sub: string, post: string)
    ensures Contains(pre + sub + post, sub)
  {
    var s := pre + sub + post;
    assert s[|pre|..|pre| + |sub|] == sub;
    assert OccursAt(s, sub, |pre|);
    ContainsIffOccurs(s, sub);
  }
}
