/**
 * Decimal text for unsigned integers: the rendering that Rust's `format!("{}")`
 * produces and the parser behind `str::parse::<u8>()` / `str::parse::<u64>()`.
 */
module Decimal {
  import opened Wrappers

  predicate IsDigit(c: char) { '0' <= c <= '9' }

  predicate AllDigits(s: string) { forall i :: 0 <= i < |s| ==> IsDigit(s[i]) }

  function DigitValue(c: char): nat
    requires IsDigit(c)
  {
    (c as int) - ('0' as int)
  }

  function DigitChar(d: nat): (c: char)
    requires d < 10
    ensures IsDigit(c) && DigitValue(c) == d
  {
    (('0' as int) + d) as char
  }

  /** Value of a digit string read left to right, starting from accumulator `acc`. */
  function ValueFrom(s: string, acc: nat): nat
    requires AllDigits(s)
  {
    if s == [] then acc else ValueFrom(s[1..], acc * 10 + DigitValue(s[0]))
  }

  /** Value of a digit string. */
  function Value(s: string): nat
    requires AllDigits(s)
  {
    ValueFrom(s, 0)
  }

  /** Decimal rendering without leading zeros, as `format!("{}", n)`. */
  function NatToString(n: nat): (r: string)
    ensures |r| > 0 && AllDigits(r)
  {
    if n < 10 then [DigitChar(n)] else NatToString(n / 10) + [DigitChar(n % 10)]
  }

  /** Rendering of a signed integer, as `format!("{}", i)` for `i32`. */
  function IntToString(i: int): (r: string)
    ensures |r| > 0
  {
    if i < 0 then "-" + NatToString(-i) else NatToString(i)
  }

  lemma {:induction false} ValueFromAtLeast(s: string, acc: nat)
    requires AllDigits(s)
    ensures ValueFrom(s, acc) >= acc
  {
    if s != [] {
      ValueFromAtLeast(s[1..], acc * 10 + DigitValue(s[0]));
    }
  }

  lemma {:induction false} ValueFromSnoc(s: string, c: char, acc: nat)
    requires AllDigits(s) && IsDigit(c)
    ensures AllDigits(s + [c])
    ensures ValueFrom(s + [c], acc) == ValueFrom(s, acc) * 10 + DigitValue(c)
  {
    assert AllDigits(s + [c]);
    if s != [] {
      assert (s + [c])[1..] == s[1..] + [c];
      ValueFromSnoc(s[1..], c, acc * 10 + DigitValue(s[0]));
    }
  }

  /** Rendering then reading back gives the number. */
  lemma {:induction false} ValueOfNatToString(n: nat)
    ensures Value(NatToString(n)) == n
  {
    if n >= 10 {
      ValueOfNatToString(n / 10);
      ValueFromSnoc(NatToString(n / 10), DigitChar(n % 10), 0);
    } else {
      var s := NatToString(n);
      assert s == [DigitChar(n)];
      assert s[1..] == [];
      assert ValueFrom(s, 0) == ValueFrom(s[1..], DigitValue(s[0]));
    }
  }

  /** Distinct numbers have distinct renderings. */
  lemma NatToStringInjective(a: nat, b: nat)
    requires NatToString(a) == NatToString(b)
    ensures a == b
  {
    ValueOfNatToString(a);
    ValueOfNatToString(b);
  }

  /** The value of a rendering with an optional leading '-'; 0 for anything else. */
  function SignedValue(s: string): int
  {
    if |s| > 0 && s[0] == '-' && AllDigits(s[1..]) then 0 - Value(s[1..]) as int
    else if AllDigits(s) then Value(s)
    else 0
  }

  lemma ValueOfIntToString(i: int)
    ensures SignedValue(IntToString(i)) == i
  {
    var n := NatToString(if i < 0 then -i else i);
    ValueOfNatToString(if i < 0 then -i else i);
    assert IsDigit(n[0]);
    if i < 0 {
      assert IntToString(i)[1..] == n;
    }
  }

  /** Distinct signed integers have distinct renderings. */
  lemma IntToStringInjective(a: int, b: int)
    requires IntToString(a) == IntToString(b)
    ensures a == b
  {
    ValueOfIntToString(a);
    ValueOfIntToString(b);
  }

  /** The error kinds of Rust's `ParseIntError`, as far as unsigned parsing goes. */
  datatype IntErrorKind = Empty | InvalidDigit | PosOverflow

  /**
   * Digit loop of Rust's unsigned `from_str_radix` (radix 10): each character is
   * checked to be a digit before the checked multiply-add would leave `0..=max`.
   */
  function Accumulate(digits: string, acc: nat, max: nat): Result<nat, IntErrorKind>
    requires acc <= max
  {
    if digits == [] then Ok(acc)
    else if !IsDigit(digits[0]) then Err(InvalidDigit)
    else if acc * 10 + DigitValue(digits[0]) > max then Err(PosOverflow)
    else Accumulate(digits[1..], acc * 10 + DigitValue(digits[0]), max)
  }

  /**
   * `str::parse` for an unsigned integer type whose largest value is `max`: empty
   * input is `Empty`, a lone sign is `InvalidDigit`, one leading '+' is accepted.
   */
  function ParseUnsigned(s: string, max: nat): Result<nat, IntErrorKind>
  {
    if |s| == 0 then Err(Empty)
    else if |s| == 1 && (s[0] == '+' || s[0] == '-') then Err(InvalidDigit)
    else if s[0] == '+' then Accumulate(s[1..], 0, max)
    else Accumulate(s, 0, max)
  }

  /** The digits that `ParseUnsigned` reads: everything after one optional '+'. */
  function Body(s: string): string
  {
    if |s| > 0 && s[0] == '+' then s[1..] else s
  }

  lemma {:induction false} AccumulateCorrect(digits: string, acc: nat, max: nat)
    requires acc <= max
    ensures Accumulate(digits, acc, max).Ok? <==> AllDigits(digits) && ValueFrom(digits, acc) <= max
    ensures Accumulate(digits, acc, max).Ok? ==> Accumulate(digits, acc, max).value == ValueFrom(digits, acc)
    ensures AllDigits(digits) && ValueFrom(digits, acc) > max ==> Accumulate(digits, acc, max) == Err(PosOverflow)
  {
    if digits != [] {
      if !IsDigit(digits[0]) {
        assert !AllDigits(digits);
      } else {
        var next := acc * 10 + DigitValue(digits[0]);
        if next > max {
          if AllDigits(digits) {
            ValueFromAtLeast(digits[1..], next);
          }
        } else {
          AccumulateCorrect(digits[1..], next, max);
          assert AllDigits(digits) <==> AllDigits(digits[1..]) by {
            if AllDigits(digits[1..]) {
              forall i | 0 <= i < |digits| ensures IsDigit(digits[i]) {
                if i > 0 { assert digits[i] == digits[1..][i - 1]; }
              }
            }
          }
        }
      }
    }
  }

  /**
   * `ParseUnsigned` succeeds exactly on a non-empty digit string, after at most one
   * '+', whose value fits; it then returns that value.
   */
  lemma ParseUnsignedCorrect(s: string, max: nat)
    ensures ParseUnsigned(s, max).Ok? <==>
      |Body(s)| > 0 && AllDigits(Body(s)) && Value(Body(s)) <= max
    ensures ParseUnsigned(s, max).Ok? ==> ParseUnsigned(s, max).value == Value(Body(s))
    ensures s == [] ==> ParseUnsigned(s, max) == Err(Empty)
    ensures |Body(s)| > 0 && AllDigits(Body(s)) && Value(Body(s)) > max ==>
      ParseUnsigned(s, max) == Err(PosOverflow)
  {
    if |s| == 1 && (s[0] == '+' || s[0] == '-') {
      assert !IsDigit(s[0]);
    } else if |s| > 0 {
      AccumulateCorrect(Body(s), 0, max);
    }
  }

  /** The rendering of any value in range parses back to it. */
  lemma ParseNatToString(n: nat, max: nat)
    requires n <= max
    ensures ParseUnsigned(NatToString(n), max) == Ok(n)
  {
    ValueOfNatToString(n);
    ParseUnsignedCorrect(NatToString(n), max);
  }
}
