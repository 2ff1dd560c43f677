/** The string operations of the programs: `str.find`, `in` and `str.replace`. */
module Strings {
  predicate At(s: string, t: string, i: nat) {
    i + |t| <= |s| && s[i..i + |t|] == t
  }

  predicate Contains(s: string, t: string) { Find(s, t, 0) >= 0 }

  /** The least position from `from` on at which `t` occurs in `s`, or -1. */
  function Find(s: string, t: string, from: nat): (k: int)
    ensures k >= 0 ==> from <= k && k + |t| <= |s| && At(s, t, k)
    ensures k < 0 ==> k == -1
    decreases |s| + 1 - from
  {
    if from > |s| then -1
    else if At(s, t, from) then from
    else Find(s, t, from + 1)
  }

  /** Nothing is skipped. */
  lemma {:induction false} FindIsLeast(s: string, t: string, from: nat, i: nat)
    requires from <= i && At(s, t, i)
    ensures 0 <= Find(s, t, from) <= i
    decreases i - from
  {
    if !At(s, t, from) {
      FindIsLeast(s, t, from + 1, i);
    }
  }

  function Replace(s: string, t: string, v: string): string
    requires t != ""
    decreases |s|
  {
    var k := Find(s, t, 0);
    if k < 0 then s else s[..k] + v + Replace(s[k + |t|..], t, v)
  }
}
