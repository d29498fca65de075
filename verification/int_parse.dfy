/** Rust's `str::parse::<u64>` (`u64::from_str`): an optional leading `+`, then one
    or more ASCII decimal digits, whose value must fit in 64 unsigned bits. */
module IntParse {
  import opened Wrappers
  import opened Decimal

  const U64_MAX: nat := 0xFFFF_FFFF_FFFF_FFFF

  /** Rust's `u64`: the integers 0 ..= 2^64 - 1. */
  newtype u64 = x: int | 0 <= x <= U64_MAX

  /** The kinds of `ParseIntError` an unsigned parse can report. */
  datatype IntErrorKind = Empty | InvalidDigit | PosOverflow

  /** The digit part of an interval token: a single leading `+` is dropped; a `-`
      is kept, so that it is rejected as a non-digit (the type is unsigned). */
  function Unsigned(s: string): string {
    if |s| > 0 && s[0] == '+' then s[1..] else s
  }

  /** Reference grammar of the texts `u64::from_str` accepts. */
  predicate ValidU64Text(s: string) {
    var ds := Unsigned(s);
    |ds| > 0 && AllDigits(ds) && DecValue(ds) <= U64_MAX
  }

  /** The scan the parser runs over the digits, left to right, with checked
      multiply and add: `acc` is the value of the `i` digits already consumed. */
  function ScanDigits(ds: string, i: nat, acc: u64): (r: Result<u64, IntErrorKind>)
    requires i <= |ds| && AllDigits(ds[..i]) && acc as int == DecValue(ds[..i])
    ensures r.Success? <==> AllDigits(ds) && DecValue(ds) <= U64_MAX
    ensures r.Success? ==> r.value as int == DecValue(ds)
    ensures r.Failure? ==> r.error != Empty
    ensures r == Failure(InvalidDigit) ==> !AllDigits(ds)
    ensures i < |ds| && !IsDigit(ds[i]) ==> r == Failure(InvalidDigit)
    decreases |ds| - i
  {
    if i == |ds| then
      assert ds[..i] == ds;
      Success(acc)
    else if !IsDigit(ds[i]) then Failure(InvalidDigit)
    else
      var mul := acc as int * 10;
      var d := DigitValue(ds[i]);
      PrefixStep(ds, i);
      PrefixMonotone(ds, i + 1);
      if mul > U64_MAX then Failure(PosOverflow)
      else if mul + d > U64_MAX then Failure(PosOverflow)
      else ScanDigits(ds, i + 1, (mul + d) as u64)
  }

  /** `u64::from_str`: succeeds exactly on the reference grammar, with the digits'
      base-10 value; an empty text is `Empty`, a too-large number of pure digits is
      `PosOverflow`, a lone sign or a bad first digit is `InvalidDigit`, and
      `InvalidDigit` always points at a bad character or a lone sign. */
  function ParseU64(s: string): (r: Result<u64, IntErrorKind>)
    ensures r.Success? <==> ValidU64Text(s)
    ensures r.Success? ==> r.value as int == DecValue(Unsigned(s))
    ensures r == Failure(Empty) <==> |s| == 0
    ensures |Unsigned(s)| > 0 && AllDigits(Unsigned(s)) && DecValue(Unsigned(s)) > U64_MAX
      ==> r == Failure(PosOverflow)
    ensures r == Failure(InvalidDigit) ==> |Unsigned(s)| == 0 || !AllDigits(Unsigned(s))
    ensures |s| > 0 && (|Unsigned(s)| == 0 || !IsDigit(Unsigned(s)[0])) ==> r == Failure(InvalidDigit)
  {
    if |s| == 0 then Failure(Empty)
    else if (s[0] == '+' || s[0] == '-') && |s| == 1 then Failure(InvalidDigit)
    else if s[0] == '+' then ScanStart(s[1..])
    else ScanStart(s)
  }

  /** The scan from the first digit, with nothing consumed. */
  function ScanStart(ds: string): (r: Result<u64, IntErrorKind>)
    ensures r.Success? <==> AllDigits(ds) && DecValue(ds) <= U64_MAX
    ensures r.Success? ==> r.value as int == DecValue(ds)
    ensures r.Failure? ==> r.error != Empty
    ensures r == Failure(InvalidDigit) ==> !AllDigits(ds)
    ensures |ds| > 0 && !IsDigit(ds[0]) ==> r == Failure(InvalidDigit)
  {
    assert ds[..0] == [];
    ScanDigits(ds, 0, 0)
  }

  /** Every number in range, written in decimal, parses back to itself. */
  lemma ParseRendering(n: nat)
    requires n <= U64_MAX
    ensures ParseU64(NatToString(n)) == Success(n as u64)
    ensures ParseU64("+" + NatToString(n)) == Success(n as u64)
  {
    var s := NatToString(n);
    assert ("+" + s)[1..] == s;
  }

  /** A number beyond 2^64 - 1 is refused, however it is written. */
  lemma ParseRejectsOverflow(n: nat)
    requires n > U64_MAX
    ensures ParseU64(NatToString(n)) == Failure(PosOverflow)
  {
  }

  /** The type is unsigned: a text holding a `-` anywhere never parses. */
  lemma ParseRejectsMinus(s: string, i: nat)
    requires i < |s| && s[i] == '-'
    ensures ParseU64(s).Failure?
  {
    if |s| > 0 && s[0] == '+' {
      assert Unsigned(s)[i - 1] == '-';
    } else {
      assert Unsigned(s)[i] == '-';
    }
  }

  /** Leading zeros do not change the value. */
  lemma {:induction false} ParseIgnoresLeadingZero(s: string)
    requires |s| > 0 && AllDigits(s)
    ensures ParseU64("0" + s) == ParseU64(s)
  {
    var z := "0" + s;
    assert z[1..] == s;
    assert AllDigits(z);
    DecValueHead(z);
  }
}
