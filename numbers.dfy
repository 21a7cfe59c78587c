/** Go's `strconv.Atoi` on a 64-bit platform and its inverse `strconv.Itoa`.
    Atoi returns a value together with an error; the configuration getters
    discard the error, so the value it returns on failure matters: 0 for a
    syntax error, the nearest 64-bit bound for an out-of-range number. */
module GoNumbers {

  const MaxUint64: nat := 0xFFFF_FFFF_FFFF_FFFF
  const MaxInt64: int := 0x7FFF_FFFF_FFFF_FFFF
  const MinInt64: int := -0x8000_0000_0000_0000
  /** The first accumulator value whose product with 10 overflows 64 bits. */
  const Cutoff: nat := MaxUint64 / 10 + 1

  predicate IsDigit(c: char) {
    '0' <= c <= '9'
  }

  predicate AllDigits(s: string) {
    forall i :: 0 <= i < |s| ==> IsDigit(s[i])
  }

  function DigitValue(c: char): (d: nat)
    requires IsDigit(c)
    ensures d < 10
  {
    c as int - '0' as int
  }

  function DigitChar(d: nat): (c: char)
    requires d < 10
    ensures IsDigit(c) && DigitValue(c) == d
  {
    ('0' as int + d) as char
  }

  /** The text after an optional leading sign. */
  function Unsigned(s: string): (d: string)
    ensures |d| <= |s|
  {
    if |s| > 0 && (s[0] == '+' || s[0] == '-') then s[1..] else s
  }

  /** Optional sign followed by at least one decimal digit: the syntax Atoi accepts. */
  predicate IsDecimal(s: string) {
    |Unsigned(s)| > 0 && AllDigits(Unsigned(s))
  }

  datatype UintScan = Value(n: nat) | SyntaxError | RangeError

  /** The digit loop of `strconv.ParseUint(s, 10, 64)`, continuing from the accumulator `n`:
      a non-digit is a syntax error, and the first step that would pass 2^64 - 1 is a
      range error, even if a non-digit follows later. */
  function ScanDigits(s: string, n: nat): (r: UintScan)
    requires n <= MaxUint64
    ensures r.Value? ==> r.n <= MaxUint64 && AllDigits(s)
  {
    if s == [] then Value(n)
    else if !IsDigit(s[0]) then SyntaxError
    else if n >= Cutoff then RangeError
    else
      var n1 := n * 10 + DigitValue(s[0]);
      if n1 > MaxUint64 then RangeError else ScanDigits(s[1..], n1)
  }

  /** `strconv.Atoi(s)` as (value, err == nil). */
  function Atoi(s: string): (r: (int, bool))
    ensures MinInt64 <= r.0 <= MaxInt64
    ensures r.1 ==> IsDecimal(s)
    ensures !r.1 && r.0 != 0 ==> r.0 == MaxInt64 || r.0 == MinInt64
  {
    if s == [] then (0, false)
    else
      var neg := s[0] == '-';
      var digits := Unsigned(s);
      if digits == [] then (0, false)
      else
        match ScanDigits(digits, 0)
        case SyntaxError => (0, false)
        case RangeError => if neg then (MinInt64, false) else (MaxInt64, false)
        case Value(u) =>
          if !neg && u > MaxInt64 then (MaxInt64, false)
          else if neg && u > -MinInt64 then (MinInt64, false)
          else
            var v: int := u;
            (if neg then -v else v, true)
  }

  /** Decimal digits of a natural number, without leading zeros. */
  function Decimal(n: nat): (s: string)
    ensures |s| > 0 && AllDigits(s)
    ensures s[0] == '0' ==> n == 0
  {
    if n < 10 then [DigitChar(n)] else Decimal(n / 10) + [DigitChar(n % 10)]
  }

  /** `strconv.Itoa`. */
  function Itoa(n: int): string {
    if n < 0 then "-" + Decimal(-n) else Decimal(n)
  }

  /** The value of a digit string read after the accumulator `n`. */
  function Fold(n: nat, s: string): nat
    requires AllDigits(s)
    decreases |s|
  {
    if s == [] then n else Fold(n * 10 + DigitValue(s[0]), s[1..])
  }

  lemma {:induction false} FoldAtLeast(n: nat, s: string)
    requires AllDigits(s)
    ensures Fold(n, s) >= n
    ensures s != [] ==> Fold(n, s) >= n * 10 + DigitValue(s[0])
    decreases |s|
  {
    if s != [] {
      FoldAtLeast(n * 10 + DigitValue(s[0]), s[1..]);
    }
  }

  lemma {:induction false} FoldSnoc(n: nat, s: string, c: char)
    requires AllDigits(s) && IsDigit(c)
    ensures AllDigits(s + [c])
    ensures Fold(n, s + [c]) == Fold(n, s) * 10 + DigitValue(c)
    decreases |s|
  {
    if s != [] {
      assert (s + [c])[1..] == s[1..] + [c];
      FoldSnoc(n * 10 + DigitValue(s[0]), s[1..], c);
    }
  }

  /** ParseUint reads a digit string exactly when its value fits in 64 bits. */
  lemma {:induction false} ScanFits(s: string, n: nat)
    requires AllDigits(s)
    requires Fold(n, s) <= MaxUint64
    ensures n <= MaxUint64
    ensures ScanDigits(s, n) == Value(Fold(n, s))
  {
    FoldAtLeast(n, s);
    if s != [] {
      var n1 := n * 10 + DigitValue(s[0]);
      ScanFits(s[1..], n1);
    }
  }

  /** Once the digits read so far pass 2^64 - 1, ParseUint reports a range error
      whatever follows them. */
  lemma {:induction false} ScanOverflow(s: string, tail: string, n: nat)
    requires AllDigits(s) && n <= MaxUint64
    requires Fold(n, s) > MaxUint64
    ensures ScanDigits(s + tail, n) == RangeError
    decreases |s|
  {
    assert s != [];
    assert (s + tail)[0] == s[0];
    if n < Cutoff {
      var n1 := n * 10 + DigitValue(s[0]);
      if n1 <= MaxUint64 {
        assert (s + tail)[1..] == s[1..] + tail;
        ScanOverflow(s[1..], tail, n1);
      }
    }
  }

  lemma {:induction false} DecimalFold(n: nat)
    ensures Fold(0, Decimal(n)) == n
  {
    if n >= 10 {
      DecimalFold(n / 10);
      FoldSnoc(0, Decimal(n / 10), DigitChar(n % 10));
    }
  }

  /** Atoi inverts Itoa on every 64-bit integer. */
  lemma AtoiItoa(n: int)
    requires MinInt64 <= n <= MaxInt64
    ensures Atoi(Itoa(n)) == (n, true)
  {
    var u: nat := if n < 0 then -n else n;
    var d := Decimal(u);
    DecimalFold(u);
    ScanFits(d, 0);
    if n < 0 {
      assert Itoa(n)[1..] == d;
    }
  }

  /** The number of decimal digits `s` starts with. */
  function LeadingDigits(s: string): (k: nat)
    ensures k <= |s| && AllDigits(s[..k])
    ensures k < |s| ==> !IsDigit(s[k])
  {
    if s == [] || !IsDigit(s[0]) then 0
    else
      var k := 1 + LeadingDigits(s[1..]);
      assert forall j :: 1 <= j < k ==> s[..k][j] == s[1..][..k - 1][j - 1];
      k
  }

  lemma AllDigitsLeading(s: string)
    requires AllDigits(s)
    ensures LeadingDigits(s) == |s| && s[..LeadingDigits(s)] == s
  {
  }

  /** The value of the digits that follow the optional sign, up to the first non-digit. */
  function Magnitude(s: string): nat {
    var d := Unsigned(s);
    Fold(0, d[..LeadingDigits(d)])
  }

  /** The signed value of that leading number. */
  function Signed(s: string): int {
    var m: int := Magnitude(s);
    if |s| > 0 && s[0] == '-' then -m else m
  }

  /** ParseUint reports a syntax error at the first non-digit, as long as the digits
      before it have not passed 2^64 - 1. */
  lemma {:induction false} ScanSyntax(pre: string, rest: string, n: nat)
    requires AllDigits(pre) && Fold(n, pre) <= MaxUint64
    requires rest != [] && !IsDigit(rest[0])
    ensures n <= MaxUint64
    ensures ScanDigits(pre + rest, n) == SyntaxError
    decreases |pre|
  {
    FoldAtLeast(n, pre);
    if pre == [] {
      assert pre + rest == rest;
    } else {
      assert (pre + rest)[0] == pre[0];
      assert (pre + rest)[1..] == pre[1..] + rest;
      ScanSyntax(pre[1..], rest, n * 10 + DigitValue(pre[0]));
    }
  }

  /** Atoi reads every decimal text whose value fits in 64 signed bits, signs and leading
      zeros included. */
  lemma AtoiDecimal(s: string)
    requires IsDecimal(s) && MinInt64 <= Signed(s) <= MaxInt64
    ensures Atoi(s) == (Signed(s), true)
  {
    var d := Unsigned(s);
    AllDigitsLeading(d);
    ScanFits(d, 0);
  }

  /** Text that is not a decimal number reads as 0 with an error, unless the digits after
      its sign pass 2^64 - 1 before the first non-digit. */
  lemma AtoiMalformed(s: string)
    requires !IsDecimal(s) && Magnitude(s) <= MaxUint64
    ensures Atoi(s) == (0, false)
  {
    var d := Unsigned(s);
    if s != [] && d != [] {
      var k := LeadingDigits(d);
      assert k < |d|;
      assert d == d[..k] + d[k..];
      ScanSyntax(d[..k], d[k..], 0);
    }
  }

  /** A number outside the 64-bit signed range reads as the bound on its side, whether
      its digits pass 2^64 - 1 (whatever follows them) or only 2^63 - 1. */
  lemma AtoiOutOfRange(s: string)
    requires Unsigned(s) != []
    requires Magnitude(s) > MaxUint64 || (IsDecimal(s) && !(MinInt64 <= Signed(s) <= MaxInt64))
    ensures Atoi(s) == (if s[0] == '-' then MinInt64 else MaxInt64, false)
  {
    var d := Unsigned(s);
    var k := LeadingDigits(d);
    if Magnitude(s) > MaxUint64 {
      assert d == d[..k] + d[k..];
      ScanOverflow(d[..k], d[k..], 0);
    } else {
      AllDigitsLeading(d);
      ScanFits(d, 0);
    }
  }
}
