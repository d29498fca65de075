/** Base-10 digit strings: the reference reading of a digit string as a number,
    and the canonical rendering of a number as a digit string (Rust's `{}` on an
    unsigned integer). */
module Decimal {

  /** An ASCII decimal digit; Rust's `char::to_digit(10)` succeeds on exactly these. */
  predicate IsDigit(c: char) {
    '0' <= c <= '9'
  }

  predicate AllDigits(s: string) {
    forall i :: 0 <= i < |s| ==> IsDigit(s[i])
  }

  function DigitValue(c: char): (d: nat)
    requires IsDigit(c)
    ensures d < 10
  {
    c as int - '0' as int
  }

  function DigitChar(d: nat): (c: char)
    requires d < 10
    ensures IsDigit(c) && DigitValue(c) == d
  {
    (d + '0' as int) as char
  }

  function Pow10(k: nat): (p: nat)
    ensures p >= 1
  {
    if k == 0 then 1 else 10 * Pow10(k - 1)
  }

  /** The number a digit string denotes, most significant digit first. */
  function DecValue(s: string): nat
    requires AllDigits(s)
    decreases |s|
  {
    if |s| == 0 then 0 else DecValue(s[..|s| - 1]) * 10 + DigitValue(s[|s| - 1])
  }

  /** The decimal rendering of `n`: digits only, no leading zero, and it reads back as `n`. */
  function NatToString(n: nat): (s: string)
    ensures |s| >= 1 && AllDigits(s)
    ensures DecValue(s) == n
    ensures |s| > 1 ==> s[0] != '0'
    decreases n
  {
    if n < 10 then [DigitChar(n)]
    else
      var prefix := NatToString(n / 10);
      var s := prefix + [DigitChar(n % 10)];
      assert s[..|s| - 1] == prefix;
      s
  }

  lemma MulAtLeast(x: nat, p: nat)
    requires p >= 1
    ensures x * p >= x
  {
  }

  /** Consuming one more digit multiplies the value read so far by ten and adds it. */
  lemma PrefixStep(s: string, i: nat)
    requires i < |s| && AllDigits(s[..i]) && IsDigit(s[i])
    ensures AllDigits(s[..i + 1])
    ensures DecValue(s[..i + 1]) == DecValue(s[..i]) * 10 + DigitValue(s[i])
  {
    assert s[..i + 1][..i] == s[..i];
  }

  /** A prefix of a digit string never denotes more than the whole string. */
  lemma {:induction false} PrefixMonotone(s: string, j: nat)
    requires j <= |s|
    ensures AllDigits(s) ==> AllDigits(s[..j]) && DecValue(s[..j]) <= DecValue(s)
    decreases |s| - j
  {
    if j == |s| {
      assert s[..j] == s;
    } else if AllDigits(s) {
      PrefixMonotone(s, j + 1);
      PrefixStep(s, j);
    }
  }

  lemma HeadArith(d0: nat, p: nat, v: nat, d: nat)
    ensures (d0 * p + v) * 10 + d == d0 * (10 * p) + (v * 10 + d)
  {
  }

  /** Reading a digit string from its leading digit: the leading digit weighs
      `10^(|s|-1)`. */
  lemma {:induction false} DecValueHead(s: string)
    requires |s| > 0 && AllDigits(s)
    ensures DecValue(s) == DigitValue(s[0]) * Pow10(|s| - 1) + DecValue(s[1..])
    decreases |s|
  {
    if |s| == 1 {
      assert s[..0] == [];
      assert s[1..] == [];
    } else {
      var init := s[..|s| - 1];
      var tail := s[1..];
      DecValueHead(init);
      assert init[0] == s[0];
      assert tail[..|tail| - 1] == init[1..];
      assert tail[|tail| - 1] == s[|s| - 1];
      var d0 := DigitValue(s[0]);
      var p := Pow10(|s| - 2);
      HeadArith(d0, p, DecValue(init[1..]), DigitValue(s[|s| - 1]));
      assert DecValue(s) == DecValue(init) * 10 + DigitValue(s[|s| - 1]);
      assert DecValue(tail) == DecValue(init[1..]) * 10 + DigitValue(s[|s| - 1]);
    }
  }

  /** A digit string without a leading zero is the rendering of its own value:
      the decimal spelling of a number is unique. */
  lemma {:induction false} CanonicalUnique(s: string)
    requires |s| >= 1 && AllDigits(s)
    requires |s| > 1 ==> s[0] != '0'
    ensures NatToString(DecValue(s)) == s
    decreases |s|
  {
    var n := DecValue(s);
    var last := s[|s| - 1];
    if |s| == 1 {
      assert s[..0] == [];
      assert DecValue(s[..0]) == 0;
      assert n == DigitValue(last);
      assert DigitChar(DigitValue(last)) == last;
    } else {
      var init := s[..|s| - 1];
      assert init[0] == s[0];
      CanonicalUnique(init);
      DecValueHead(init);
      MulAtLeast(DigitValue(init[0]), Pow10(|init| - 1));
      assert DecValue(init) >= 1;
      assert n == DecValue(init) * 10 + DigitValue(last);
      assert n / 10 == DecValue(init) && n % 10 == DigitValue(last);
      assert DigitChar(DigitValue(last)) == last;
      assert init + [last] == s;
    }
  }
}
