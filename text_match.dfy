/** The matching `Question.question.ilike('%term%')` performs: the term occurs
    somewhere in the question text, letters compared without regard to case. */
module TextMatch {

  /** Lower-casing of one character; only the ASCII letters are folded. */
  function LowerChar(c: char): char
  {
    if 'A' <= c <= 'Z' then (c as int - 'A' as int + 'a' as int) as char else c
  }

  function Lower(s: string): (r: string)
    ensures |r| == |s|
  {
    seq(|s|, i requires 0 <= i < |s| => LowerChar(s[i]))
  }

  /** `p` occurs in `t` starting at index `i`. */
  ghost predicate OccursAt(t: string, p: string, i: int)
  {
    0 <= i && i + |p| <= |t| && t[i..i + |p|] == p
  }

  /** Substring search, trying each start position in turn. */
  function Contains(t: string, p: string): bool
    decreases |t|
  {
    if p <= t then true
    else if |t| == 0 then false
    else Contains(t[1..], p)
  }

  /** `Contains` finds an occurrence exactly when there is one. */
  lemma {:induction false} ContainsIff(t: string, p: string)
    ensures Contains(t, p) <==> exists i :: OccursAt(t, p, i)
    decreases |t|
  {
    if p <= t {
      assert OccursAt(t, p, 0);
    } else if |t| > 0 {
      ContainsIff(t[1..], p);
      assert OccursAt(t, p, 0) ==> p <= t;
      forall i | OccursAt(t, p, i) && i > 0
        ensures OccursAt(t[1..], p, i - 1)
      {
        assert t[1..][i - 1..i - 1 + |p|] == t[i..i + |p|];
      }
      if Contains(t[1..], p) {
        var i :| OccursAt(t[1..], p, i);
        assert t[1..][i..i + |p|] == t[i + 1..i + 1 + |p|];
        assert OccursAt(t, p, i + 1);
      }
    }
  }

  /** The `ILIKE '%term%'` test. */
  function ContainsIgnoringCase(text: string, term: string): bool
  {
    Contains(Lower(text), Lower(term))
  }

  /** Folding case twice is folding it once. */
  lemma LowerIdempotent(s: string)
    ensures Lower(Lower(s)) == Lower(s)
  {
  }

  /** Search results do not depend on the case of the letters of the term or
      of the text: `'palace'`, `'PALACE'` and `'Palace'` find the same rows. */
  lemma MatchIgnoresCase(text: string, term: string)
    ensures ContainsIgnoringCase(text, term) == ContainsIgnoringCase(Lower(text), Lower(term))
  {
    LowerIdempotent(text);
    LowerIdempotent(term);
  }
}
