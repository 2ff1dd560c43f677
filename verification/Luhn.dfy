/** The Luhn check that corroborates card numbers
    (cosai_mcp/middleware/protection.py:87-104; Annex B of ISO/IEC 7812-1). */
module Luhn {
  predicate IsDigit(c: char) { '0' <= c <= '9' }

  function Value(c: char): (d: int)
    requires IsDigit(c)
    ensures 0 <= d <= 9
  {
    c as int - '0' as int
  }

  /** The digits of the text; every other character is skipped. */
  function Digits(s: string): (ds: seq<int>)
    ensures forall i :: 0 <= i < |ds| ==> 0 <= ds[i] <= 9
  {
    if s == "" then []
    else Digits(s[..|s| - 1]) + (if IsDigit(s[|s| - 1]) then [Value(s[|s| - 1])] else [])
  }

  /** Doubling, with the two digits of the result added up. */
  function Doubled(d: int): int { if 2 * d > 9 then 2 * d - 9 else 2 * d }

  /** The standard's rule: counted from the right, every second digit is doubled. */
  function Term(ds: seq<int>, i: nat): int
    requires i < |ds|
  {
    if (|ds| - 1 - i) % 2 == 1 then Doubled(ds[i]) else ds[i]
  }

  function Sum(ds: seq<int>, k: nat): int
    requires k <= |ds|
  {
    if k == 0 then 0 else Sum(ds, k - 1) + Term(ds, k - 1)
  }

  predicate Valid(ds: seq<int>) {
    13 <= |ds| <= 19 && Sum(ds, |ds|) % 10 == 0
  }

  ghost predicate AreDigits(ds: seq<int>) {
    forall i :: 0 <= i < |ds| ==> 0 <= ds[i] <= 9
  }

  method LuhnValid(candidate: string) returns (ok: bool)
    ensures ok == Valid(Digits(candidate))
  {
    var digits := Digits(candidate);
    if !(13 <= |digits| <= 19) {
      return false;
    }
    var checksum := 0;
    var parity := |digits| % 2;
    for i := 0 to |digits|
      invariant checksum == Sum(digits, i)
    {
      var d := digits[i];
      if i % 2 == parity {
        assert (|digits| - 1 - i) % 2 == 1;
        d := d * 2;
        if d > 9 {
          d := d - 9;
        }
      } else {
        assert (|digits| - 1 - i) % 2 == 0;
      }
      checksum := checksum + d;
    }
    return checksum % 10 == 0;
  }

  // ---------------------------------------------------------------------------
  // Error detection
  // ---------------------------------------------------------------------------

  lemma {:induction false} SumAfterChange(ds: seq<int>, k: nat, e: int, m: nat)
    requires k < |ds| && m <= |ds|
    ensures Sum(ds[k := e], m) == Sum(ds, m) + (if k < m then Term(ds[k := e], k) - Term(ds, k) else 0)
    decreases m
  {
    if m > 0 {
      SumAfterChange(ds, k, e, m - 1);
    }
  }

  /** Every change of one digit of a valid number is detected. */
  lemma {:induction false} SingleDigitChangeDetected(ds: seq<int>, k: nat, e: int)
    requires AreDigits(ds) && Valid(ds) && k < |ds| && 0 <= e <= 9 && e != ds[k]
    ensures !Valid(ds[k := e])
  {
    hide Sum;
    SumAfterChange(ds, k, e, |ds|);
    var delta := Term(ds[k := e], k) - Term(ds, k);
    assert -9 <= delta <= 9 && delta != 0;
    SameRemainder(Sum(ds, |ds|), delta);
  }

  /** How much the checksum changes when `a`, doubled, and `b` trade places. */
  function SwapDelta(a: int, b: int): int { Doubled(b) + a - Doubled(a) - b }

  lemma {:induction false} SwapDeltaZero(a: int, b: int)
    requires 0 <= a <= 9 && 0 <= b <= 9
    ensures -10 < SwapDelta(a, b) < 10
    ensures SwapDelta(a, b) == 0 <==> a == b || (a == 0 && b == 9) || (a == 9 && b == 0)
  {
  }

  lemma {:induction false} SameRemainder(sum: int, delta: int)
    requires sum % 10 == 0 && -10 < delta < 10
    ensures (sum + delta) % 10 == 0 <==> delta == 0
  {
  }

  lemma {:induction false} PairIs(a: int, b: int, x: int, y: int)
    requires x != y
    ensures {a, b} == {x, y} <==> (a == x && b == y) || (a == y && b == x)
  {
    if {a, b} == {x, y} {
      assert x in {a, b} && y in {a, b};
    }
  }

  /** A swap of two adjacent digits goes unnoticed exactly when they are equal or are
      0 and 9. */
  lemma {:induction false} AdjacentSwapDetected(ds: seq<int>, k: nat)
    requires AreDigits(ds) && Valid(ds) && k + 1 < |ds|
    ensures Valid(ds[k := ds[k + 1]][k + 1 := ds[k]]) <==>
              ds[k] == ds[k + 1] || {ds[k], ds[k + 1]} == {0, 9}
  {
    var a, b := ds[k], ds[k + 1];
    var delta := SwapChangesSum(ds, k);
    hide Sum, AreDigits;
    SwapDeltaZero(a, b);
    SwapDeltaZero(b, a);
    PairIs(a, b, 0, 9);
    SameRemainder(Sum(ds, |ds|), delta);
  }

  lemma {:induction false} SwapChangesSum(ds: seq<int>, k: nat) returns (delta: int)
    requires k + 1 < |ds|
    ensures var twice := ds[k := ds[k + 1]][k + 1 := ds[k]];
            |twice| == |ds| && Sum(twice, |ds|) == Sum(ds, |ds|) + delta
    ensures delta == SwapDelta(ds[k], ds[k + 1]) || delta == SwapDelta(ds[k + 1], ds[k])
  {
    var a, b := ds[k], ds[k + 1];
    var once := ds[k := b];
    var twice := once[k + 1 := a];
    hide Sum, Doubled;
    SumAfterChange(ds, k, b, |ds|);
    SumAfterChange(once, k + 1, a, |ds|);
    delta := Sum(twice, |ds|) - Sum(ds, |ds|);
  }

  // ---------------------------------------------------------------------------
  // The same on the text, with whatever separators it has
  // ---------------------------------------------------------------------------

  lemma {:induction false} DigitsConcat(s: string, t: string)
    ensures Digits(s + t) == Digits(s) + Digits(t)
    decreases |t|
  {
    if t == "" {
      assert s + t == s;
    } else {
      DigitsConcat(s, t[..|t| - 1]);
      assert (s + t)[..|s + t| - 1] == s + t[..|t| - 1];
    }
  }

  lemma {:induction false} DigitAt(s: string, p: nat)
    requires p < |s| && IsDigit(s[p])
    ensures Digits(s) == Digits(s[..p]) + [Value(s[p])] + Digits(s[p + 1..])
  {
    assert s == s[..p] + [s[p]] + s[p + 1..];
    DigitsConcat(s[..p] + [s[p]], s[p + 1..]);
    DigitsConcat(s[..p], [s[p]]);
    OneDigit(s[p]);
  }

  lemma {:induction false} OneDigit(c: char)
    requires IsDigit(c)
    ensures Digits([c]) == [Value(c)]
  {
    assert [c][..0] == "";
  }

  /** Mistyping any one digit of an accepted number makes it rejected. */
  lemma {:induction false} MistypedDigitRejected(s: string, p: nat, c: char)
    requires p < |s| && IsDigit(s[p]) && IsDigit(c) && c != s[p]
    requires Valid(Digits(s))
    ensures !Valid(Digits(s[p := c]))
  {
    var t := s[p := c];
    DigitAt(s, p);
    DigitAt(t, p);
    assert t[..p] == s[..p] && t[p + 1..] == s[p + 1..];
    var k := |Digits(s[..p])|;
    assert Digits(t) == Digits(s)[k := Value(c)];
    SingleDigitChangeDetected(Digits(s), k, Value(c));
  }

  // ---------------------------------------------------------------------------
  // The rule, read from the right
  // ---------------------------------------------------------------------------

  /** From the last digit on, every second digit doubled and its own digits added up. */
  function RightSum(ds: seq<int>, double: bool): int {
    if ds == [] then 0
    else
      var d := ds[|ds| - 1];
      (if double then 2 * d / 10 + 2 * d % 10 else d) + RightSum(ds[..|ds| - 1], !double)
  }

  lemma {:induction false} SumIsRightSum(ds: seq<int>, k: nat)
    requires k <= |ds| && AreDigits(ds)
    ensures Sum(ds, k) == RightSum(ds[..k], (|ds| - k) % 2 == 1)
  {
    if k > 0 {
      SumIsRightSum(ds, k - 1);
      assert ds[..k][..k - 1] == ds[..k - 1] && ds[..k][k - 1] == ds[k - 1];
      assert 0 <= ds[k - 1] <= 9;
    }
  }

  /** A number is valid exactly when it has 13 to 19 digits and that sum, which leaves the
      last digit as it is, is a multiple of ten. */
  lemma {:induction false} ValidIff(ds: seq<int>)
    requires AreDigits(ds)
    ensures Valid(ds) <==> 13 <= |ds| <= 19 && RightSum(ds, false) % 10 == 0
  {
    SumIsRightSum(ds, |ds|);
    assert ds[..|ds|] == ds;
  }

  /** The digits of a text are those of its parts, in order: a decimal digit counts for
      itself, and every other character for nothing. */
  lemma {:induction false} DigitsAre(s: string, t: string, c: char)
    ensures Digits(s + t) == Digits(s) + Digits(t)
    ensures Digits([c]) == if '0' <= c <= '9' then [c as int - 48] else []
    ensures AreDigits(Digits(s))
  {
    DigitsConcat(s, t);
    assert [c][..0] == "";
  }
}
