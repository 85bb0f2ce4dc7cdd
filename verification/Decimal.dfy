/**
  Decimal numerals as strings, and the order in which strings compare (by code unit,
  as the relational operators on strings do).
 */
module Decimal {

  function Digit(d: nat): (c: char)
    requires d < 10
    ensures '0' <= c <= '9' && c as int - '0' as int == d
  {
    '0' + d as char
  }

  predicate IsDigit(c: char) {
    '0' <= c <= '9'
  }

  predicate IsNumeral(s: string) {
    forall i :: 0 <= i < |s| ==> IsDigit(s[i])
  }

  /** The number a string of digits denotes; `Number("")` is 0. */
  function Value(s: string): nat
    requires IsNumeral(s)
  {
    if s == "" then 0 else 10 * Value(s[..|s| - 1]) + (s[|s| - 1] as int - '0' as int)
  }

  /** `n.toString()`. */
  function ToString(n: nat): (s: string)
    ensures s != "" && IsNumeral(s)
  {
    if n < 10 then [Digit(n)] else ToString(n / 10) + [Digit(n % 10)]
  }

  /** `s.padStart(width, "0")`. */
  function PadStart(s: string, width: nat): string
    decreases width - |s|
  {
    if |s| >= width then s else PadStart(['0'] + s, width)
  }

  /** The last `width` decimal digits of `n`, leading zeros included. */
  function Pad(n: nat, width: nat): (s: string)
    ensures |s| == width && IsNumeral(s)
  {
    if width == 0 then "" else Pad(n / 10, width - 1) + [Digit(n % 10)]
  }

  function Pow10(k: nat): (p: nat)
    ensures p > 0
  {
    if k == 0 then 1 else 10 * Pow10(k - 1)
  }

  lemma {:induction false} ValueToString(n: nat)
    ensures Value(ToString(n)) == n
  {
    if n >= 10 {
      ValueToString(n / 10);
      assert ToString(n)[..|ToString(n)| - 1] == ToString(n / 10);
    }
  }

  lemma ToStringInjective(m: nat, n: nat)
    requires ToString(m) == ToString(n)
    ensures m == n
  {
    ValueToString(m);
    ValueToString(n);
  }

  lemma {:induction false} ValuePad(n: nat, width: nat)
    requires n < Pow10(width)
    ensures Value(Pad(n, width)) == n
  {
    if width > 0 {
      ValuePad(n / 10, width - 1);
      assert Pad(n, width)[..width - 1] == Pad(n / 10, width - 1);
    }
  }

  lemma {:induction false} PadZero(width: nat)
    ensures Pad(0, width + 1) == ['0'] + Pad(0, width)
  {
    if width > 0 {
      PadZero(width - 1);
    }
  }

  /** Zero-filling a longer numeral only adds leading zeros. */
  lemma {:induction false} PadWider(n: nat, width: nat)
    requires n < Pow10(width)
    ensures Pad(n, width + 1) == ['0'] + Pad(n, width)
  {
    if width == 0 {
    } else {
      PadWider(n / 10, width - 1);
    }
  }

  lemma {:induction false} ToStringIsPad(n: nat)
    ensures n < Pow10(|ToString(n)|) && ToString(n) == Pad(n, |ToString(n)|)
  {
    if n < 10 {
      assert Pow10(1) == 10 * Pow10(0);
      assert Pad(n, 1) == Pad(n / 10, 0) + [Digit(n % 10)];
    } else {
      ToStringIsPad(n / 10);
    }
  }

  lemma {:induction false} PadStartPad(n: nat, k: nat, width: nat)
    requires n < Pow10(k) && k <= width
    ensures PadStart(Pad(n, k), width) == Pad(n, width)
    decreases width - k
  {
    if k < width {
      PadWider(n, k);
      PadStartPad(n, k + 1, width);
    }
  }

  lemma {:induction false} ToStringShort(n: nat, width: nat)
    requires 0 < width && n < Pow10(width)
    ensures |ToString(n)| <= width
  {
    if n >= 10 {
      assert width > 1 by {
        assert Pow10(1) == 10 * Pow10(0);
      }
      ToStringShort(n / 10, width - 1);
    }
  }

  /** `n.toString().padStart(width, "0")` is the fixed-width numeral when `n` fits. */
  lemma PadStartToString(n: nat, width: nat)
    requires 0 < width && n < Pow10(width)
    ensures PadStart(ToString(n), width) == Pad(n, width)
  {
    ToStringIsPad(n);
    ToStringShort(n, width);
    PadStartPad(n, |ToString(n)|, width);
  }

  // ---- string order ---------------------------------------------------------------

  /** `a < b` on strings. */
  predicate Before(a: string, b: string) {
    if b == "" then false
    else if a == "" then true
    else if a[0] != b[0] then a[0] < b[0]
    else Before(a[1..], b[1..])
  }

  /** Between strings with heads of equal length, the heads decide unless they are equal. */
  lemma {:induction false} BeforeAppend(p: string, q: string, a: string, b: string)
    requires |p| == |q|
    ensures Before(p + a, q + b) == (Before(p, q) || (p == q && Before(a, b)))
  {
    if p == "" {
      assert p + a == a && q + b == b;
    } else {
      BeforeAppend(p[1..], q[1..], a, b);
      assert (p + a)[1..] == p[1..] + a && (q + b)[1..] == q[1..] + b;
      assert p == [p[0]] + p[1..] && q == [q[0]] + q[1..];
    }
  }

  /** Zero-padded rendering is order preserving. */
  lemma {:induction false} PadOrder(m: nat, n: nat, width: nat)
    requires m < Pow10(width) && n < Pow10(width)
    ensures Before(Pad(m, width), Pad(n, width)) == (m < n)
    ensures Pad(m, width) == Pad(n, width) ==> m == n
  {
    ValuePad(m, width);
    ValuePad(n, width);
    if width > 0 {
      PadOrder(m / 10, n / 10, width - 1);
      BeforeAppend(Pad(m / 10, width - 1), Pad(n / 10, width - 1), [Digit(m % 10)], [Digit(n % 10)]);
    }
  }
}
