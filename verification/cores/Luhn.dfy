/**
 The check of a card number (routes/demo/output_scan.py, `_luhn_ok`; Annex B of ISO/IEC
 7812-1): digits are weighted from the right, every second one doubled.
 */
module Luhn {
  predicate IsDigits(s: string) {
    forall i | 0 <= i < |s| :: '0' <= s[i] <= '9'
  }

  function Value(c: char): int {
    c as int - 48
  }

  /** What one character adds to the sum. */
  function Weight(c: char, doubled: bool): int {
    var d := Value(c);
    if !doubled then d else if 2 * d > 9 then 2 * d - 9 else 2 * d
  }

  /** The sum of a number whose last digit is doubled or not. */
  function Sum(s: string, doubled: bool): int {
    if s == "" then 0 else Sum(s[..|s| - 1], !doubled) + Weight(s[|s| - 1], doubled)
  }

  predicate Passes(s: string) {
    Sum(s, false) % 10 == 0
  }

  /** `_luhn_ok` */
  method LuhnOk(digits: string) returns (ok: bool)
    ensures ok == Passes(digits)
  {
    var total, alt, i := 0, false, |digits|;
    assert digits[..i] == digits;
    while i > 0
      invariant 0 <= i <= |digits|
      invariant total + Sum(digits[..i], alt) == Sum(digits, false)
    {
      i := i - 1;
      var d := digits[i] as int - 48;
      if alt {
        d := d * 2;
        if d > 9 {
          d := d - 9;
        }
      }
      assert digits[..i + 1][..i] == digits[..i];
      total := total + d;
      alt := !alt;
    }
    ok := total % 10 == 0;
  }

  /** What a digit adds: itself if an even number of digits follow it, else the digits of its double. */
  function Adds(s: string, i: nat): int
    requires i < |s|
  {
    var d := s[i] as int - '0' as int;
    if (|s| - i) % 2 == 1 then d else if d < 5 then d + d else d + d - 9
  }

  /** What the digits from `i` on add, from left to right. */
  function AddedFrom(s: string, i: nat): int
    requires i <= |s|
    decreases |s| - i
  {
    if i == |s| then 0 else Adds(s, i) + AddedFrom(s, i + 1)
  }

  /** The last digit counts once, the one before it twice, and so on to the left. */
  lemma PassesByPosition(s: string)
    ensures Passes(s) <==> AddedFrom(s, 0) % 10 == 0
  {
    SumByPosition(s, |s|);
    assert s[..|s|] == s;
  }

  lemma {:induction false} SumByPosition(s: string, k: nat)
    requires k <= |s|
    ensures Sum(s[..k], (|s| - k) % 2 == 1) + AddedFrom(s, k) == AddedFrom(s, 0)
  {
    if k > 0 {
      SumByPosition(s, k - 1);
      assert s[..k][..k - 1] == s[..k - 1];
      assert Weight(s[k - 1], (|s| - k) % 2 == 1) == Adds(s, k - 1);
    }
  }

  /** Whether the digit at `i` is doubled, counting from the right. */
  predicate DoubledAt(s: string, i: nat, doubled: bool)
    requires i < |s|
  {
    Alternates(|s| - 1 - i) != doubled
  }

  predicate Alternates(k: nat) {
    if k == 0 then false else !Alternates(k - 1)
  }

  lemma {:induction false} SumUpdate(s: string, i: nat, c: char, doubled: bool)
    requires i < |s|
    ensures (var w := DoubledAt(s, i, doubled);
             Sum(s[i := c], doubled) == Sum(s, doubled) - Weight(s[i], w) + Weight(c, w))
  {
    var n := |s| - 1;
    if i == n {
      assert s[i := c][..n] == s[..n];
    } else {
      SumUpdate(s[..n], i, c, !doubled);
      assert s[i := c][..n] == s[..n][i := c];
    }
  }

  /** Different digits have different weights, doubled or not. */
  lemma WeightInjective(c: char, d: char, doubled: bool)
    requires '0' <= c <= '9' && '0' <= d <= '9' && c != d
    ensures Weight(c, doubled) != Weight(d, doubled)
    ensures -9 <= Weight(c, doubled) - Weight(d, doubled) <= 9
  {
  }

  /** Any one changed digit is noticed. */
  lemma ChangedDigitFails(s: string, i: nat, c: char)
    requires IsDigits(s) && Passes(s) && i < |s| && '0' <= c <= '9' && c != s[i]
    ensures !Passes(s[i := c])
  {
    SumUpdate(s, i, c, false);
    var w := DoubledAt(s, i, false);
    WeightInjective(s[i], c, w);
    Multiples(Sum(s, false), Weight(c, w) - Weight(s[i], w));
  }

  function Swapped(s: string, i: nat): string
    requires i + 1 < |s|
  {
    s[i := s[i + 1]][i + 1 := s[i]]
  }

  lemma SwapSum(s: string, i: nat)
    requires i + 1 < |s|
    ensures (var w := DoubledAt(s, i, false);
             Sum(Swapped(s, i), false) == Sum(s, false) - Weight(s[i], w) + Weight(s[i + 1], w) - Weight(s[i + 1], !w) + Weight(s[i], !w))
  {
    var t := s[i := s[i + 1]];
    NextAlternates(t, s, i);
    SumUpdate(s, i, s[i + 1], false);
    SumUpdate(t, i + 1, s[i], false);
  }

  lemma NextAlternates(t: string, s: string, i: nat)
    requires i + 1 < |s| == |t|
    ensures DoubledAt(t, i + 1, false) == !DoubledAt(s, i, false)
  {
    assert |s| - 1 - i == (|t| - 1 - (i + 1)) + 1;
  }

  /** An exchange of two adjacent digits is noticed exactly when they differ and are not 0 and 9. */
  lemma SwapFailsExactly(s: string, i: nat)
    requires IsDigits(s) && Passes(s) && i + 1 < |s|
    ensures !Passes(Swapped(s, i)) <==> s[i] != s[i + 1] && !(s[i] == '0' && s[i + 1] == '9') && !(s[i] == '9' && s[i + 1] == '0')
  {
    var a, b := s[i], s[i + 1];
    SwapSum(s, i);
    Gain(a, b);
    var gain := (Weight(a, true) - Weight(a, false)) - (Weight(b, true) - Weight(b, false));
    var change := Sum(Swapped(s, i), false) - Sum(s, false);
    assert change == if DoubledAt(s, i, false) then -gain else gain;
    Multiples(Sum(s, false), change);
    Negated(gain);
  }

  /** Adding to a multiple of ten gives a multiple of ten exactly if a multiple is added. */
  lemma Multiples(sum: int, change: int)
    requires sum % 10 == 0
    ensures (sum + change) % 10 == 0 <==> change % 10 == 0
  {
    assert sum == 10 * (sum / 10);
  }

  lemma Negated(change: int)
    ensures change % 10 == 0 <==> (-change) % 10 == 0
  {
    var q, r := change / 10, change % 10;
    assert -change == 10 * -q - r;
    if r == 0 { assert (10 * -q) % 10 == 0; }
  }

  /** Doubling gains a digit its value, less 9 from 5 on: only 0 and 9 gain alike. */
  lemma Gain(a: char, b: char)
    requires '0' <= a <= '9' && '0' <= b <= '9'
    ensures Weight(a, true) - Weight(a, false) == if Value(a) > 4 then Value(a) - 9 else Value(a)
    ensures ((Weight(a, true) - Weight(a, false)) - (Weight(b, true) - Weight(b, false))) % 10 == 0
       <==> a == b || (a == '0' && b == '9') || (a == '9' && b == '0')
  {
  }

  /** Every prefix has exactly one check digit. */
  lemma CheckDigitIsUnique(s: string)
    requires IsDigits(s)
    ensures exists c :: '0' <= c <= '9' && Passes(s + [c])
    ensures forall c, d | '0' <= c <= '9' && '0' <= d <= '9' && Passes(s + [c]) && Passes(s + [d]) :: c == d
  {
    var sum := Sum(s, true);
    Completes(sum);
    var c := (48 + (-sum) % 10) as char;
    WithCheckDigit(s, c);
    forall c, d | '0' <= c <= '9' && '0' <= d <= '9' && Passes(s + [c]) && Passes(s + [d]) ensures c == d {
      WithCheckDigit(s, c);
      WithCheckDigit(s, d);
      OnlyOne(sum, Value(c), Value(d));
    }
  }

  lemma WithCheckDigit(s: string, c: char)
    ensures Passes(s + [c]) <==> (Sum(s, true) + Value(c)) % 10 == 0
  {
    assert (s + [c])[..|s|] == s;
  }

  lemma Completes(sum: int)
    ensures (sum + (-sum) % 10) % 10 == 0
  {
    assert -sum == 10 * ((-sum) / 10) + (-sum) % 10;
  }

  lemma OnlyOne(sum: int, u: int, v: int)
    requires 0 <= u <= 9 && 0 <= v <= 9 && (sum + u) % 10 == 0 == (sum + v) % 10
    ensures u == v
  {
    assert u - v == 10 * ((sum + u) / 10 - (sum + v) / 10);
  }
}
