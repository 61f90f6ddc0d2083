/** NUL-terminated text in arrays of characters. */
module CStrings {

  const NUL: char := '\0'

  ghost predicate Terminated(s: seq<char>, p: nat) {
    exists q :: p <= q < |s| && s[q] == NUL
  }

  // The length of the text from position p on.
  function StrLen(s: seq<char>, p: nat): (n: nat)
    requires Terminated(s, p)
    ensures p + n < |s| && s[p + n] == NUL && forall i :: p <= i < p + n ==> s[i] != NUL
    decreases |s| - p
  {
    if s[p] == NUL then 0 else 1 + StrLen(s, p + 1)
  }

  function Text(s: seq<char>, p: nat): (t: string)
    requires Terminated(s, p)
    ensures |t| == StrLen(s, p)
  {
    s[p..p + StrLen(s, p)]
  }

  // Text t, terminated, stands at position p.
  predicate Holds(s: seq<char>, p: nat, t: string) {
    && p + |t| < |s| && s[p + |t|] == NUL
    && forall i :: 0 <= i < |t| ==> s[p + i] == t[i] && t[i] != NUL
  }

  lemma {:induction false} TextIs(s: seq<char>, p: nat, t: string)
    requires Holds(s, p, t)
    ensures Terminated(s, p) && Text(s, p) == t
    decreases |t|
  {
    if t == [] {
      assert StrLen(s, p) == 0;
    } else {
      assert s[p + 0] == t[0];
      forall i | 0 <= i < |t[1..]|
        ensures s[p + 1 + i] == t[1..][i] && t[1..][i] != NUL
      {
        assert s[p + (i + 1)] == t[i + 1];
      }
      TextIs(s, p + 1, t[1..]);
    }
  }
}
