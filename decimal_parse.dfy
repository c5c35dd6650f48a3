/**
 * Decimal parsing used by the numeric encoding of src/backend/access/common/unsaferow.c:
 * the C library's `strtoll` (reduced to sign and digits) and the file's own
 * `strtoi128`.
 *
 * Strings are C strings: the Dafny string holds the characters before the
 * terminating NUL, so it contains no NUL itself, and reading one position past
 * its end yields NUL.
 */
module DecimalParse {
  import opened PgErrors

  const INT64_MIN: int := -0x8000_0000_0000_0000
  const INT64_MAX: int := 0x7FFF_FFFF_FFFF_FFFF
  const INT128_MIN: int := -0x8000_0000_0000_0000_0000_0000_0000_0000
  const INT128_MAX: int := 0x7FFF_FFFF_FFFF_FFFF_FFFF_FFFF_FFFF_FFFF

  /** A C string: no NUL before the terminator. */
  predicate CString(s: string) {
    forall i :: 0 <= i < |s| ==> s[i] != '\0'
  }

  /** The character at position `i` of a C string, NUL at and past its end. */
  function At(s: string, i: nat): char {
    if i < |s| then s[i] else '\0'
  }

  predicate IsDigit(c: char) {
    '0' <= c <= '9'
  }

  predicate AllDigits(s: string) {
    forall i :: 0 <= i < |s| ==> IsDigit(s[i])
  }

  function DigitValue(c: char): (d: nat)
    requires IsDigit(c)
    ensures d < 10
  {
    (c as int) - ('0' as int)
  }

  function Pow10(n: nat): (p: nat)
    ensures p >= 1
  {
    if n == 0 then 1 else 10 * Pow10(n - 1)
  }

  /** The value of a string of decimal digits, most significant first. */
  function DecimalValue(ds: string): nat
    requires AllDigits(ds)
  {
    if ds == [] then 0 else DecimalValue(ds[..|ds| - 1]) * 10 + DigitValue(ds[|ds| - 1])
  }

  /** `n` digits never denote more than 10^n - 1. */
  lemma {:induction false} DecimalValueBound(ds: string)
    requires AllDigits(ds)
    ensures DecimalValue(ds) < Pow10(|ds|)
  {
    if ds != [] {
      DecimalValueBound(ds[..|ds| - 1]);
    }
  }

  /** The decimal digits of `n`, without leading zeros ("" for zero). */
  function DecimalString(n: nat): (s: string)
    ensures AllDigits(s)
    ensures s == [] || s[0] != '0'
  {
    if n == 0 then "" else DecimalString(n / 10) + [('0' as int + n % 10) as char]
  }

  /** Reading back the digits of `n` gives `n`. */
  lemma {:induction false} DecimalRoundTrip(n: nat)
    ensures DecimalValue(DecimalString(n)) == n
  {
    if n != 0 {
      var s := DecimalString(n);
      var last := ('0' as int + n % 10) as char;
      assert s[..|s| - 1] == DecimalString(n / 10);
      assert s[|s| - 1] == last;
      DecimalRoundTrip(n / 10);
    }
  }

  // ---------------------------------------------------------------------------
  // strtoi128

  /** Where the digits start: after at most one leading sign. */
  function SignLength(s: string): (k: nat)
    ensures k <= 1 && k <= |s|
  {
    if |s| > 0 && (s[0] == '-' || s[0] == '+') then 1 else 0
  }

  /**
   * What `strtoi128` returns for `s`: the signed value of the digits after an
   * optional sign, or the "invalid int128 value" report when any other
   * character follows. Only a leading '-' negates; "" and a lone sign give 0.
   */
  function ParseInt128(s: string): (r: Result<int>)
    ensures r.Ok? <==> AllDigits(s[SignLength(s)..])
    ensures r.Error? ==> r.report == InvalidInt128(s)
  {
    var digits := s[SignLength(s)..];
    if !AllDigits(digits) then Error(InvalidInt128(s))
    else if At(s, 0) == '-' then Ok(-(DecimalValue(digits) as int))
    else Ok(DecimalValue(digits))
  }

  /** strtoi128 (src/backend/access/common/unsaferow.c:175-196). */
  method StrToI128(s: string) returns (r: Result<int>)
    requires CString(s)
    ensures r == ParseInt128(s)
  {
    var isneg := At(s, 0) == '-';
    var v := 0;
    var idx := 0;
    if At(s, 0) == '-' || At(s, 0) == '+' {
      idx := 1;
    }
    ghost var start := idx;
    assert start == SignLength(s);
    while At(s, idx) != '\0'
      invariant start <= idx <= |s|
      invariant AllDigits(s[start..idx])
      invariant v == DecimalValue(s[start..idx])
      decreases |s| - idx
    {
      if s[idx] < '0' || s[idx] > '9' {
        assert !IsDigit(s[start..][idx - start]);
        return Error(InvalidInt128(s));
      }
      assert s[start..idx + 1][..idx - start] == s[start..idx];
      v := v * 10 + DigitValue(s[idx]);
      idx := idx + 1;
    }
    assert s[start..idx] == s[start..];
    if isneg {
      v := v * -1;
    }
    return Ok(v);
  }

  /**
   * With at most 38 digits the accumulator of `strtoi128` stays inside the
   * int128 range at every step, so its signed overflow cannot happen.
   */
  lemma {:induction false} Int128NoOverflow(s: string)
    requires AllDigits(s[SignLength(s)..])
    requires |s| - SignLength(s) <= 38
    ensures forall k :: SignLength(s) <= k <= |s| ==>
      DecimalValue(s[SignLength(s)..k]) <= INT128_MAX
    ensures INT128_MIN <= ParseInt128(s).value <= INT128_MAX
  {
    var start := SignLength(s);
    forall k | start <= k <= |s|
      ensures DecimalValue(s[start..k]) <= INT128_MAX
    {
      assert AllDigits(s[start..k]);
      DigitsBelowInt128(s[start..k]);
    }
    DigitsBelowInt128(s[start..]);
  }

  /** At most 38 digits stay inside the int128 range. */
  lemma DigitsBelowInt128(ds: string)
    requires AllDigits(ds) && |ds| <= 38
    ensures DecimalValue(ds) <= INT128_MAX
  {
    DecimalValueBound(ds);
    Pow10Monotone(|ds|, 38);
    Pow10Values();
  }

  lemma {:induction false} Pow10Monotone(a: nat, b: nat)
    requires a <= b
    ensures Pow10(a) <= Pow10(b)
  {
    if a < b {
      Pow10Monotone(a, b - 1);
    }
  }

  lemma {:induction false} Pow10Add(a: nat, b: nat)
    ensures Pow10(a + b) == Pow10(a) * Pow10(b)
  {
    if a > 0 {
      Pow10Add(a - 1, b);
    }
  }

  /** The two powers of ten that bound the int64 and int128 paths. */
  lemma Pow10Values()
    ensures Pow10(18) == 1_000_000_000_000_000_000
    ensures Pow10(38) == 100_000_000_000_000_000_000_000_000_000_000_000_000
  {
    assert Pow10(2) == 100;
    Pow10Add(2, 2);
    Pow10Add(4, 4);
    Pow10Add(8, 8);
    Pow10Add(16, 2);
    Pow10Add(16, 16);
    Pow10Add(32, 4);
    Pow10Add(36, 2);
  }

  /** Signed decimal text round-trips through `strtoi128`. */
  lemma {:induction false} ParseInt128RoundTrip(n: nat, negative: bool)
    ensures ParseInt128((if negative then "-" else "") + DecimalString(n))
            == Ok(if negative then -(n as int) else n)
  {
    var s := (if negative then "-" else "") + DecimalString(n);
    DecimalRoundTrip(n);
    if negative {
      assert s[1..] == DecimalString(n);
    } else {
      assert s == DecimalString(n);
      if s != [] {
        assert IsDigit(s[0]);
      }
    }
  }

  // ---------------------------------------------------------------------------
  // strtoll, reduced to an optional sign followed by digits

  /** The number of consecutive digits of `s` starting at position `i`. */
  function DigitRun(s: string, i: nat): (n: nat)
    requires i <= |s|
    ensures i + n <= |s|
    ensures AllDigits(s[i..i + n])
    ensures i + n < |s| ==> !IsDigit(s[i + n])
    decreases |s| - i
  {
    if i < |s| && IsDigit(s[i]) then
      var n := 1 + DigitRun(s, i + 1);
      assert s[i..i + n] == [s[i]] + s[i + 1..i + n];
      n
    else 0
  }

  /** What `strtoll(s, &end, 10)` reports: the value and the index `end` points at. */
  datatype StrtollResult = StrtollResult(value: int, end: nat)

  /** Saturation of an out-of-range result, as `strtoll` does. */
  function Clamp64(v: int): (r: int)
    ensures INT64_MIN <= r <= INT64_MAX
    ensures INT64_MIN <= v <= INT64_MAX ==> r == v
  {
    if v < INT64_MIN then INT64_MIN else if v > INT64_MAX then INT64_MAX else v
  }

  /**
   * strtoll: an optional sign, then the longest run of digits; with no digit
   * at all nothing is consumed and the value is 0.
   */
  function Strtoll(s: string): (r: StrtollResult)
    ensures r.end <= |s|
    ensures INT64_MIN <= r.value <= INT64_MAX
    // the whole string is consumed exactly when it is empty or a sign followed by one or more digits only
    ensures r.end == |s| <==>
      s == [] || (SignLength(s) < |s| && AllDigits(s[SignLength(s)..]))
  {
    var start := SignLength(s);
    var n := DigitRun(s, start);
    if n == 0 then
      StrtollResult(0, 0)
    else
      var magnitude := DecimalValue(s[start..start + n]);
      StrtollResult(Clamp64(if At(s, 0) == '-' then -(magnitude as int) else magnitude), start + n)
  }

  /**
   * For text that `strtoll` consumes whole and that holds at most 18 digits,
   * `strtoll` and `strtoi128` agree: precision 18 is exactly the range where
   * the int64 path loses nothing.
   */
  lemma {:induction false} StrtollAgreesWithInt128(s: string)
    requires SignLength(s) < |s| && AllDigits(s[SignLength(s)..])
    requires |s| - SignLength(s) <= 18
    ensures Strtoll(s).end == |s|
    ensures ParseInt128(s) == Ok(Strtoll(s).value)
  {
    var start := SignLength(s);
    var n := DigitRun(s, start);
    assert s[start..start + n] == s[start..];
    DecimalValueBound(s[start..]);
    Pow10Monotone(|s| - start, 18);
    Pow10Values();
  }
}
