/** The launcher's uses of Go's `strconv`: `Atoi` (string to int) and
    `Itoa` (int to decimal string), on a 64-bit platform where Go's `int`
    is 64 bits wide. */
module GoStrconv {
  import opened GoStrings

  const MAX_INT64: int := 0x7fff_ffff_ffff_ffff
  const MIN_INT64: int := -0x8000_0000_0000_0000
  const MAX_UINT64: int := 0xffff_ffff_ffff_ffff

  /** The error `Atoi` returns: none, a syntax error, or a range error. */
  datatype NumError = NoError | ErrSyntax | ErrRange

  /** The pair `(value, err)` that `strconv.Atoi` returns. */
  datatype AtoiResult = AtoiResult(value: int, err: NumError)

  /** Outcome of the digit loop of `strconv.ParseUint` in base 10. */
  datatype UintScan = UintOk(n: nat) | UintSyntax | UintRange

  function DigitValue(c: char): nat
    requires IsAsciiDigit(c)
  {
    c as int - '0' as int
  }

  function DigitChar(d: nat): (c: char)
    requires d < 10
    ensures IsAsciiDigit(c) && DigitValue(c) == d
  {
    ('0' as int + d) as char
  }

  /** The value of a run of digits read left to right onto `acc`, with no
      bound on its size. */
  function FoldDigits(s: string, acc: nat): nat
    requires AllDigits(s)
    decreases |s|
  {
    if s == [] then acc else FoldDigits(s[1..], acc * 10 + DigitValue(s[0]))
  }

  /** The decimal value of a run of digits. */
  function DecimalValue(s: string): nat
    requires AllDigits(s)
  {
    FoldDigits(s, 0)
  }

  /** The digit loop of `strconv.ParseUint(s, 10, 64)`: it stops with a
      syntax error at the first non-digit, and with a range error as soon as
      the value read so far no longer fits in 64 unsigned bits, whichever
      comes first. */
  function ScanUint(s: string, acc: nat): (r: UintScan)
    ensures r.UintOk? ==> AllDigits(s) && r.n == FoldDigits(s, acc)
    ensures r.UintSyntax? ==> !AllDigits(s)
    ensures acc <= MAX_UINT64 && r.UintOk? ==> r.n <= MAX_UINT64
    decreases |s|
  {
    if s == [] then UintOk(acc)
    else if !IsAsciiDigit(s[0]) then UintSyntax
    else
      var next := acc * 10 + DigitValue(s[0]);
      if next > MAX_UINT64 then UintRange else ScanUint(s[1..], next)
  }

  /** `strconv.Atoi(s)`: an optional sign and at least one digit. A syntax
      error gives 0; a value outside the 64-bit range gives a range error
      with the value clamped to the nearest bound, as `strconv.ParseInt`
      does. */
  function Atoi(s: string): (r: AtoiResult)
    ensures r.err == ErrSyntax ==> r.value == 0
    ensures MIN_INT64 <= r.value <= MAX_INT64
    ensures r.err == ErrRange ==> r.value == MIN_INT64 || r.value == MAX_INT64
    ensures r.err == ErrRange ==> s != [] && (r.value == MIN_INT64 <==> s[0] == '-')
  {
    if s == [] then AtoiResult(0, ErrSyntax)
    else
      var neg := s[0] == '-';
      var digits := if s[0] == '-' || s[0] == '+' then s[1..] else s;
      if digits == [] then AtoiResult(0, ErrSyntax)
      else
        match ScanUint(digits, 0)
        case UintSyntax => AtoiResult(0, ErrSyntax)
        case UintRange => AtoiResult(if neg then MIN_INT64 else MAX_INT64, ErrRange)
        case UintOk(n) =>
          if !neg && n > MAX_INT64 then AtoiResult(MAX_INT64, ErrRange)
          else if neg && n > -MIN_INT64 then AtoiResult(MIN_INT64, ErrRange)
          else AtoiResult(if neg then 0 - n else n, NoError)
  }

  /** The decimal digits of `n`, most significant first, without leading
      zeros. */
  function DecimalString(n: nat): (s: string)
    ensures IsDigits(s)
    ensures n > 0 ==> s[0] != '0'
  {
    if n < 10 then [DigitChar(n)] else DecimalString(n / 10) + [DigitChar(n % 10)]
  }

  /** `strconv.Itoa(n)`: a minus sign exactly for negative numbers, then the
      decimal digits of the magnitude without leading zeros. */
  function Itoa(n: int): (r: string)
    ensures r != [] && (r[0] == '-' <==> n < 0)
    ensures var ds := if n < 0 then r[1..] else r; IsDigits(ds) && (n != 0 ==> ds[0] != '0')
  {
    if n < 0 then "-" + DecimalString(-n) else DecimalString(n)
  }

  lemma {:induction false} FoldDigitsGrows(s: string, acc: nat)
    requires AllDigits(s)
    ensures FoldDigits(s, acc) >= acc
    decreases |s|
  {
    if s != [] {
      FoldDigitsGrows(s[1..], acc * 10 + DigitValue(s[0]));
    }
  }

  /** On a run of digits the digit loop computes the value, or reports a
      range error exactly when the value exceeds 64 unsigned bits. */
  lemma {:induction false} ScanUintOfDigits(s: string, acc: nat)
    requires AllDigits(s) && acc <= MAX_UINT64
    ensures ScanUint(s, acc) ==
      if FoldDigits(s, acc) <= MAX_UINT64 then UintOk(FoldDigits(s, acc)) else UintRange
    decreases |s|
  {
    if s != [] {
      var next := acc * 10 + DigitValue(s[0]);
      FoldDigitsGrows(s[1..], next);
      if next <= MAX_UINT64 {
        ScanUintOfDigits(s[1..], next);
      }
    }
  }

  /** `Atoi` of a run of digits is its decimal value when that fits in an
      `int64`, and a range error otherwise. */
  lemma AtoiOfDigits(s: string)
    requires IsDigits(s)
    ensures DecimalValue(s) <= MAX_INT64 ==> Atoi(s) == AtoiResult(DecimalValue(s), NoError)
    ensures DecimalValue(s) > MAX_INT64 ==> Atoi(s) == AtoiResult(MAX_INT64, ErrRange)
  {
    ScanUintOfDigits(s, 0);
  }

  lemma {:induction false} FoldDigitsAppend(s: string, c: char, acc: nat)
    requires AllDigits(s) && IsAsciiDigit(c)
    ensures AllDigits(s + [c])
    ensures FoldDigits(s + [c], acc) == FoldDigits(s, acc) * 10 + DigitValue(c)
    decreases |s|
  {
    if s == [] {
      assert [] + [c] == [c];
    } else {
      assert (s + [c])[1..] == s[1..] + [c];
      FoldDigitsAppend(s[1..], c, acc * 10 + DigitValue(s[0]));
    }
  }

  /** Reading back the decimal string of `n` gives `n`. */
  lemma {:induction false} DecimalRoundTrip(n: nat)
    ensures DecimalValue(DecimalString(n)) == n
  {
    if n >= 10 {
      DecimalRoundTrip(n / 10);
      FoldDigitsAppend(DecimalString(n / 10), DigitChar(n % 10), 0);
      assert DecimalString(n) == DecimalString(n / 10) + [DigitChar(n % 10)];
      assert (n / 10) * 10 + n % 10 == n;
    } else {
      var c := DigitChar(n);
      assert DecimalString(n) == [c];
      assert [c][1..] == [];
      assert FoldDigits([c], 0) == FoldDigits([], DigitValue(c));
    }
  }

  /** Every `int64` survives `Itoa` followed by `Atoi` without error. */
  lemma AtoiItoa(n: int)
    requires MIN_INT64 <= n <= MAX_INT64
    ensures Atoi(Itoa(n)) == AtoiResult(n, NoError)
  {
    var m: nat := if n < 0 then -n else n;
    var ds := DecimalString(m);
    DecimalRoundTrip(m);
    ScanUintOfDigits(ds, 0);
    if n < 0 {
      assert Itoa(n)[1..] == ds;
    }
  }

  /** Ten to the power `k`. */
  function Pow10(k: nat): nat {
    if k == 0 then 1 else 10 * Pow10(k - 1)
  }

  /** A run of `k` digits read onto `acc` stays below `(acc + 1) * 10^k`. */
  lemma {:induction false} FoldDigitsBound(s: string, acc: nat)
    requires AllDigits(s)
    ensures FoldDigits(s, acc) < (acc + 1) * Pow10(|s|)
    decreases |s|
  {
    if s != [] {
      var next := acc * 10 + DigitValue(s[0]);
      FoldDigitsBound(s[1..], next);
      assert (next + 1) * Pow10(|s| - 1) <= (acc * 10 + 10) * Pow10(|s| - 1);
      assert (acc * 10 + 10) * Pow10(|s| - 1) == (acc + 1) * Pow10(|s|);
    }
  }

  /** The digit loop meets a non-digit before it overflows, when the digits
      in front of it fit in 64 unsigned bits. */
  lemma {:induction false} ScanUintStopsAt(digits: string, c: char, rest: string, acc: nat)
    requires AllDigits(digits) && !IsAsciiDigit(c)
    requires FoldDigits(digits, acc) <= MAX_UINT64
    ensures ScanUint(digits + [c] + rest, acc) == UintSyntax
    decreases |digits|
  {
    var s := digits + [c] + rest;
    if digits == [] {
      assert s[0] == c;
    } else {
      var next := acc * 10 + DigitValue(digits[0]);
      FoldDigitsGrows(digits[1..], next);
      assert s[0] == digits[0] && s[1..] == digits[1..] + [c] + rest;
      ScanUintStopsAt(digits[1..], c, rest, next);
    }
  }

  /** A string that is not a number reads as 0 with a syntax error: after
      the optional sign and at most 19 digits (too few to overflow) comes a
      character that is no digit. A sign in front of nothing, or the empty
      string, is a syntax error too. */
  lemma AtoiNonNumeric(sign: string, digits: string, c: char, rest: string)
    requires sign == "" || sign == "-" || sign == "+"
    requires AllDigits(digits) && |digits| <= 19
    requires !IsAsciiDigit(c)
    requires sign + digits == "" ==> c != '-' && c != '+'
    ensures Atoi(sign + digits + [c] + rest) == AtoiResult(0, ErrSyntax)
    ensures Atoi(sign) == AtoiResult(0, ErrSyntax)
  {
    var s := sign + digits + [c] + rest;
    var tail := digits + [c] + rest;
    assert s == sign + tail;
    FoldDigitsBound(digits, 0);
    assert Pow10(5) == 100_000;
    assert Pow10(10) == 10_000_000_000;
    assert Pow10(15) == 1_000_000_000_000_000;
    assert Pow10(19) == 10_000_000_000_000_000_000;
    PowMonotone(|digits|, 19);
    ScanUintStopsAt(digits, c, rest, 0);
    if sign != "" {
      assert s[0] == sign[0] && s[1..] == tail;
    } else {
      assert s == tail;
      if digits == [] {
        assert s[0] == c;
      } else {
        assert s[0] == digits[0];
      }
    }
  }

  lemma {:induction false} PowMonotone(j: nat, k: nat)
    requires j <= k
    ensures Pow10(j) <= Pow10(k)
    decreases k
  {
    if j < k {
      PowMonotone(j, k - 1);
    }
  }

  /** `"abc"`, `"1x"` and `"-"` read as 0 with a syntax error. */
  lemma AtoiNonNumericExamples()
    ensures Atoi("abc") == AtoiResult(0, ErrSyntax)
    ensures Atoi("1x") == AtoiResult(0, ErrSyntax)
    ensures Atoi("-") == AtoiResult(0, ErrSyntax)
  {
    AtoiNonNumeric("", "", 'a', "bc");
    assert "" + "" + ['a'] + "bc" == "abc";
    AtoiNonNumeric("", "1", 'x', "");
    assert "" + "1" + ['x'] + "" == "1x";
    AtoiNonNumeric("-", "", 'x', "");
  }
}
