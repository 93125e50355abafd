/**
 * Conversion of an integer literal's text to its 64-bit value, as Go's
 * `strconv.ParseInt(lit, 0, 64)` does it: `ParseUint` picks the base (a
 * leading `0` selects base 8, anything else base 10), then reads the digits
 * left to right into an unsigned 64-bit accumulator, failing with a syntax
 * error at the first character that is not a digit of the base and with a
 * range error as soon as the accumulator would pass 2^64-1; `ParseInt` then
 * rejects values above 2^63-1 as out of range.
 */
module IntLiteral {
  import opened Wrappers

  const MaxInt64: int := 0x7FFF_FFFF_FFFF_FFFF
  const MaxUint64: int := 0xFFFF_FFFF_FFFF_FFFF

  /** The two failures of `strconv.ParseInt`: malformed text, value too big. */
  datatype NumError = ErrSyntax | ErrRange

  predicate IsDigitChar(c: char)
  {
    '0' <= c <= '9'
  }

  predicate AllDigits(s: string)
  {
    forall i | 0 <= i < |s| :: IsDigitChar(s[i])
  }

  predicate AllOctal(s: string)
  {
    forall i | 0 <= i < |s| :: '0' <= s[i] <= '7'
  }

  function DigitValue(c: char): nat
    requires IsDigitChar(c)
  {
    c as int - '0' as int
  }

  /** Every character of `s` is a digit of the given base. */
  predicate AllBelow(s: string, base: nat)
  {
    forall i | 0 <= i < |s| :: IsDigitChar(s[i]) && DigitValue(s[i]) < base
  }

  /** The digits of `s`, most significant first, appended to `n` in the given
      base, with unbounded arithmetic. */
  function Fold(s: string, base: nat, n: nat): nat
    requires AllDigits(s)
    decreases |s|
  {
    if |s| == 0 then n else Fold(s[1..], base, n * base + DigitValue(s[0]))
  }

  /** The value of a digit string in the given base. */
  function Value(s: string, base: nat): nat
    requires AllDigits(s)
  {
    Fold(s, base, 0)
  }

  lemma {:induction false} FoldGrows(s: string, base: nat, n: nat)
    requires AllDigits(s) && base >= 1
    ensures Fold(s, base, n) >= n
    decreases |s|
  {
    if |s| > 0 {
      assert n * base >= n by { assert n * base == n + n * (base - 1); }
      FoldGrows(s[1..], base, n * base + DigitValue(s[0]));
    }
  }

  /** Appending a digit multiplies the value by the base and adds the digit. */
  lemma {:induction false} FoldAppend(a: string, c: char, base: nat, n: nat)
    requires AllDigits(a) && IsDigitChar(c)
    ensures AllDigits(a + [c])
    ensures Fold(a + [c], base, n) == Fold(a, base, n) * base + DigitValue(c)
    decreases |a|
  {
    if |a| == 0 {
      assert a + [c] == [c];
      assert [c][1..] == [];
    } else {
      assert (a + [c])[1..] == a[1..] + [c];
      FoldAppend(a[1..], c, base, n * base + DigitValue(a[0]));
    }
  }

  /** The digit loop of `strconv.ParseUint` from accumulator `n`: a
      character that is not a digit of the base is a syntax error, and an
      accumulator that would exceed 2^64-1 is a range error, whichever comes
      first. */
  function Accumulate(s: string, base: nat, n: nat): (r: Result<nat, NumError>)
    requires 2 <= base <= 10 && n <= MaxUint64
    ensures r.Success? <==> AllBelow(s, base) && Fold(s, base, n) <= MaxUint64
    ensures r.Success? ==> r.value == Fold(s, base, n)
    ensures r.Failure? && AllBelow(s, base) ==> r.error == ErrRange
    decreases |s|
  {
    if |s| == 0 then Success(n)
    else if !IsDigitChar(s[0]) || DigitValue(s[0]) >= base then Failure(ErrSyntax)
    else
      var m := n * base + DigitValue(s[0]);
      if m > MaxUint64 then
        assert AllDigits(s[1..]) ==> Fold(s[1..], base, m) >= m by {
          if AllDigits(s[1..]) {
            FoldGrows(s[1..], base, m);
          }
        }
        Failure(ErrRange)
      else
        Accumulate(s[1..], base, m)
  }

  /** Text that `ParseUint` with base 0 reads as a number: an octal run after
      a leading zero, a decimal run otherwise. */
  predicate WellFormed(s: string)
  {
    |s| > 0 && if s[0] == '0' then AllOctal(s[1..]) else AllDigits(s)
  }

  /** `strconv.ParseUint(s, 0, 64)` on text without base prefix or `_`. */
  function ParseUint(s: string): (r: Result<nat, NumError>)
    ensures r.Success? <==> WellFormed(s) && (if s[0] == '0' then Value(s[1..], 8) else Value(s, 10)) <= MaxUint64
    ensures r.Success? ==> r.value == if s[0] == '0' then Value(s[1..], 8) else Value(s, 10)
    ensures r.Failure? && WellFormed(s) ==> r.error == ErrRange
  {
    if |s| == 0 then Failure(ErrSyntax)
    else if s[0] == '0' then
      assert AllOctal(s[1..]) <==> AllBelow(s[1..], 8);
      Accumulate(s[1..], 8, 0)
    else
      assert AllDigits(s) <==> AllBelow(s, 10);
      Accumulate(s, 10, 0)
  }

  lemma OctalRunIsDigits(s: string)
    requires |s| > 0 && s[0] == '0' && AllOctal(s[1..])
    ensures AllDigits(s)
  {
    forall i | 1 <= i < |s|
      ensures IsDigitChar(s[i])
    {
      assert s[i] == s[1..][i - 1];
    }
  }

  /** `strconv.ParseInt(s, 0, 64)` on unsigned text: the unsigned value, or
      a range error once it passes 2^63-1. */
  function ParseInt(s: string): (r: Result<int, NumError>)
    ensures r.Success? ==> 0 <= r.value <= MaxInt64
    ensures r.Success? ==> |s| > 0 && AllDigits(s)
    ensures r.Success? && s[0] != '0' ==> r.value == Value(s, 10)
    ensures r.Success? && s[0] == '0' ==> AllOctal(s[1..]) && r.value == Value(s[1..], 8)
    ensures r.Success? <==> WellFormed(s) && (if s[0] == '0' then Value(s[1..], 8) else Value(s, 10)) <= MaxInt64
    ensures r.Failure? && WellFormed(s) ==> r.error == ErrRange
  {
    var u := ParseUint(s);
    if u.Failure? then Failure(u.error)
    else if u.value > MaxInt64 then Failure(ErrRange)
    else
      assert s[0] == '0' ==> AllDigits(s) by {
        if s[0] == '0' {
          OctalRunIsDigits(s);
        }
      }
      Success(u.value)
  }

  function DigitChar(d: nat): (c: char)
    requires d < 10
    ensures IsDigitChar(c) && DigitValue(c) == d
  {
    ('0' as int + d) as char
  }

  /** The decimal text of `n` without leading zeros (what Go's
      `strconv.Itoa` prints). */
  function Decimal(n: nat): (s: string)
    ensures |s| > 0 && AllDigits(s)
    ensures (s[0] == '0') <==> n == 0
    decreases n
  {
    if n < 10 then [DigitChar(n)] else Decimal(n / 10) + [DigitChar(n % 10)]
  }

  lemma {:induction false} DecimalValue(n: nat)
    ensures Value(Decimal(n), 10) == n
    decreases n
  {
    if n < 10 {
      assert Decimal(n) == [DigitChar(n)];
      assert Decimal(n)[1..] == [];
      assert Fold(Decimal(n), 10, 0) == Fold([], 10, n);
    } else {
      FoldAppend(Decimal(n / 10), DigitChar(n % 10), 10, 0);
      DecimalValue(n / 10);
    }
  }

  /** Parsing the decimal text of any 64-bit non-negative value gives that
      value back. */
  lemma ParseDecimalRoundTrip(n: nat)
    requires n <= MaxInt64
    ensures ParseInt(Decimal(n)) == Success(n)
  {
    DecimalValue(n);
    if n == 0 {
      assert Decimal(n) == "0";
      assert Decimal(n)[1..] == "";
    }
  }

  /** A decimal digit run converts to its value when that is at most
      2^63-1 and is a range error otherwise. */
  lemma OverflowIsRangeError(s: string)
    requires |s| > 0 && AllDigits(s) && s[0] != '0'
    ensures ParseInt(s) == if Value(s, 10) > MaxInt64 then Failure(ErrRange) else Success(Value(s, 10))
  {
  }

  /** An octal run after a leading zero converts to its base-8 value when
      that is at most 2^63-1 and is a range error otherwise. */
  lemma OctalLiteral(s: string)
    requires |s| > 0 && s[0] == '0' && AllOctal(s[1..])
    ensures ParseInt(s) == if Value(s[1..], 8) > MaxInt64 then Failure(ErrRange) else Success(Value(s[1..], 8))
  {
  }

  /** A leading zero makes the literal octal: `010` is eight and `08` is not a
      number at all. */
  lemma LeadingZeroMeansOctal()
    ensures ParseInt("010") == Success(8)
    ensures ParseInt("08") == Failure(ErrSyntax)
    ensures ParseInt("0") == Success(0)
  {
    assert "010"[1..] == "10";
    assert "10"[1..] == "0";
    assert "0"[1..] == "";
    assert Value("10", 8) == 8;
    assert "08"[1..] == "8";
  }

  /** Once the digits read so far pass 2^64-1 the loop stops with a range
      error, whatever follows. */
  lemma {:induction false} OverflowBeforeBadDigit(a: string, b: string, base: nat, n: nat)
    requires 2 <= base <= 10 && n <= MaxUint64
    requires AllBelow(a, base) && Fold(a, base, n) > MaxUint64
    ensures Accumulate(a + b, base, n) == Failure(ErrRange)
    decreases |a|
  {
    var m := n * base + DigitValue(a[0]);
    assert (a + b)[0] == a[0];
    assert (a + b)[1..] == a[1..] + b;
    if m <= MaxUint64 {
      OverflowBeforeBadDigit(a[1..], b, base, m);
    }
  }

  /** An octal literal whose leading digits already pass 2^64-1 is a range
      error even when a later character is not an octal digit. */
  lemma OctalOverflowHidesLaterDigits(a: string, b: string)
    requires AllOctal(a) && Value(a, 8) > MaxUint64
    ensures ParseInt("0" + a + b) == Failure(ErrRange)
  {
    var s := "0" + a + b;
    assert s[1..] == a + b;
    assert AllOctal(a) <==> AllBelow(a, 8);
    OverflowBeforeBadDigit(a, b, 8, 0);
  }

  function Pow(b: nat, k: nat): nat
  {
    if k == 0 then 1 else b * Pow(b, k - 1)
  }

  lemma {:induction false} PowAdd(b: nat, j: nat, k: nat)
    ensures Pow(b, j + k) == Pow(b, j) * Pow(b, k)
    decreases k
  {
    if k > 0 {
      PowAdd(b, j, k - 1);
      assert b * (Pow(b, j) * Pow(b, k - 1)) == Pow(b, j) * (b * Pow(b, k - 1));
    }
  }

  /** A run of `k` sevens is 8^k - 1 in octal. */
  lemma {:induction false} Sevens(k: nat, n: nat)
    ensures AllOctal(seq(k, _ => '7'))
    ensures Fold(seq(k, _ => '7'), 8, n) + 1 == (n + 1) * Pow(8, k)
    decreases k
  {
    if k > 0 {
      var s := seq(k, _ => '7');
      assert s[1..] == seq(k - 1, _ => '7');
      Sevens(k - 1, n * 8 + 7);
      assert (n * 8 + 8) * Pow(8, k - 1) == (n + 1) * (8 * Pow(8, k - 1));
    }
  }

  /** `0` followed by twenty-two sevens and an `8`: the sevens alone are
      8^22 - 1, above 2^64-1, so the range error is reported before the
      non-octal `8` is reached. */
  lemma RangeErrorBeforeSyntaxError()
    ensures ParseInt("077777777777777777777778") == Failure(ErrRange)
  {
    var a := seq(22, _ => '7');
    Sevens(22, 0);
    PowAdd(8, 11, 11);
    assert Pow(8, 11) == 0x2_0000_0000;
    assert "077777777777777777777778" == "0" + a + "8";
    OctalOverflowHidesLaterDigits(a, "8");
  }
}
