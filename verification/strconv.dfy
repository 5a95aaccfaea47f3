/**
 Go's `strconv.Atoi` on a 64-bit platform. Atoi has a fast path for inputs
 of 1 to 18 bytes and otherwise defers to `ParseInt(s, 10, 0)`; for base 10
 the two accept the same inputs and report the same errors, so one
 definition models both: an optional sign, then one or more decimal digits
 (no underscores, no spaces), whose value must fit in a signed 64-bit int.

 The digit loop of `ParseUint` checks each byte in order: a non-digit is a
 syntax error, and a value that no longer fits in 64 unsigned bits is a
 range error at once, before the remaining bytes are looked at.
 */
module Strconv {
  import opened GoTypes

  const MaxUint64: nat := 0xFFFF_FFFF_FFFF_FFFF
  /** 1 << 63, the magnitude limit of a signed 64-bit value. */
  const Cutoff: nat := 0x8000_0000_0000_0000

  const Plus: bv8 := 0x2B
  const Minus: bv8 := 0x2D

  datatype NumErrorKind = InvalidSyntax | OutOfRange

  /** `*strconv.NumError` from Atoi: its Num is always the whole input. */
  datatype NumError = NumError(kind: NumErrorKind, input: Bytes)

  predicate IsDigit(c: bv8) {
    0x30 <= c <= 0x39
  }

  function DigitValue(c: bv8): nat
    requires IsDigit(c)
  {
    c as int - 0x30
  }

  predicate AllDigits(s: Bytes) {
    forall i | 0 <= i < |s| :: IsDigit(s[i])
  }

  function Pow10(n: nat): (r: nat)
    ensures r >= 1
  {
    if n == 0 then 1 else 10 * Pow10(n - 1)
  }

  /** Positional value of a run of decimal digits (the reference meaning). */
  function DecimalValue(s: Bytes): nat
    requires AllDigits(s)
    decreases |s|
  {
    if |s| == 0 then 0 else 10 * DecimalValue(s[..|s| - 1]) + DigitValue(s[|s| - 1])
  }

  /** The input without its leading sign byte, if any. */
  function Unsigned(s: Bytes): Bytes {
    if |s| > 0 && (s[0] == Plus || s[0] == Minus) then s[1..] else s
  }

  /** Inputs Atoi can read: optional sign, then at least one digit. */
  predicate WellFormed(s: Bytes) {
    |Unsigned(s)| >= 1 && AllDigits(Unsigned(s))
  }

  /** The integer a well-formed input denotes, unbounded. */
  function IntegerValue(s: Bytes): int
    requires WellFormed(s)
  {
    var v := DecimalValue(Unsigned(s)) as int;
    if s[0] == Minus then -v else v
  }

  /**
   The digit loop of `ParseUint(s, 10, 64)`, acc being the value read so
   far. Its two overflow tests (`n >= cutoff`, then `n1 < n || n1 > maxVal`)
   together fail exactly when acc * 10 + digit exceeds MaxUint64.
   */
  function ScanDigits(s: Bytes, acc: nat): Result<nat, NumErrorKind>
    requires acc <= MaxUint64
    decreases |s|
  {
    if |s| == 0 then Ok(acc)
    else if !IsDigit(s[0]) then Err(InvalidSyntax)
    else
      var next := acc * 10 + DigitValue(s[0]);
      if next > MaxUint64 then Err(OutOfRange)
      else ScanDigits(s[1..], next)
  }

  /** `strconv.Atoi(s)` with a 64-bit `int`. */
  function Atoi(s: Bytes): (r: Result<Int64, NumError>)
    ensures r.Err? ==> r.error.input == s
  {
    var digits := Unsigned(s);
    if |digits| == 0 then Err(NumError(InvalidSyntax, s))
    else match ScanDigits(digits, 0)
      case Err(kind) => Err(NumError(kind, s))
      case Ok(u) =>
        var neg := s[0] == Minus;
        if !neg && u >= Cutoff then Err(NumError(OutOfRange, s))
        else if neg && u > Cutoff then Err(NumError(OutOfRange, s))
        else Ok(if neg then -(u as int) else u)
  }

  // ---------------------------------------------------------------------
  // Arithmetic of decimal digit runs

  lemma DigitsOfConcat(a: Bytes, b: Bytes)
    requires AllDigits(a + b)
    ensures AllDigits(a) && AllDigits(b)
  {
    assert forall i | 0 <= i < |a| :: a[i] == (a + b)[i];
    assert forall i | 0 <= i < |b| :: b[i] == (a + b)[|a| + i];
  }

  lemma ShiftDigit(x: nat, p: nat, y: nat, d: nat)
    ensures 10 * (x * p + y) + d == x * (10 * p) + (10 * y + d)
  {
  }

  lemma Regroup(acc: nat, d: nat, p: nat, y: nat)
    requires p >= 1
    ensures acc * (10 * p) + (d * p + y) == (acc * 10 + d) * p + y
    ensures (acc * 10 + d) * p + y >= acc * 10 + d
  {
  }

  lemma {:induction false} DecimalAppend(a: Bytes, b: Bytes)
    requires AllDigits(a + b)
    ensures AllDigits(a) && AllDigits(b)
    ensures DecimalValue(a + b) == DecimalValue(a) * Pow10(|b|) + DecimalValue(b)
    decreases |b|
  {
    DigitsOfConcat(a, b);
    if |b| == 0 {
      assert a + b == a;
    } else {
      var b' := b[..|b| - 1];
      var last := b[|b| - 1];
      assert (a + b)[..|a + b| - 1] == a + b';
      assert (a + b)[|a + b| - 1] == last;
      DigitsOfConcat(a + b', [last]);
      DecimalAppend(a, b');
      ShiftDigit(DecimalValue(a), Pow10(|b'|), DecimalValue(b'), DigitValue(last));
    }
  }

  lemma DecimalCons(s: Bytes)
    requires |s| >= 1 && AllDigits(s)
    ensures AllDigits(s[1..])
    ensures DecimalValue(s) == DigitValue(s[0]) * Pow10(|s| - 1) + DecimalValue(s[1..])
  {
    var head: Bytes := [s[0]];
    var tail := s[1..];
    assert head + tail == s;
    DecimalAppend(head, tail);
    assert head[..0] == [];
    assert DecimalValue(head) == DigitValue(s[0]);
  }

  lemma {:induction false} DecimalBound(s: Bytes)
    requires AllDigits(s)
    ensures DecimalValue(s) < Pow10(|s|)
    decreases |s|
  {
    if |s| > 0 {
      assert forall i | 0 <= i < |s| - 1 :: s[..|s| - 1][i] == s[i];
      DecimalBound(s[..|s| - 1]);
    }
  }

  lemma {:induction false} Pow10Monotone(a: nat, b: nat)
    requires a <= b
    ensures Pow10(a) <= Pow10(b)
    decreases b
  {
    if a < b {
      Pow10Monotone(a, b - 1);
    }
  }

  lemma {:induction false} Pow10Add(a: nat, b: nat)
    ensures Pow10(a + b) == Pow10(a) * Pow10(b)
    decreases b
  {
    if b > 0 {
      Pow10Add(a, b - 1);
      assert Pow10(a) * (10 * Pow10(b - 1)) == 10 * (Pow10(a) * Pow10(b - 1));
    }
  }

  lemma FirstNonDigit(s: Bytes) returns (j: nat)
    requires !AllDigits(s)
    ensures j < |s| && AllDigits(s[..j]) && !IsDigit(s[j])
  {
    j := 0;
    while IsDigit(s[j])
      invariant j < |s| && AllDigits(s[..j])
      invariant exists k | j <= k < |s| :: !IsDigit(s[k])
      decreases |s| - j
    {
      j := j + 1;
    }
  }

  // ---------------------------------------------------------------------
  // The digit loop against the reference meaning

  /** On a run of digits the loop yields its value, or a range error if it overflows. */
  lemma {:induction false} ScanAllDigits(s: Bytes, acc: nat)
    requires acc <= MaxUint64 && AllDigits(s)
    ensures ScanDigits(s, acc) ==
      (if acc * Pow10(|s|) + DecimalValue(s) <= MaxUint64
       then Ok(acc * Pow10(|s|) + DecimalValue(s))
       else Err(OutOfRange))
    decreases |s|
  {
    if |s| > 0 {
      DecimalCons(s);
      var d := DigitValue(s[0]);
      var next := acc * 10 + d;
      var p := Pow10(|s| - 1);
      Regroup(acc, d, p, DecimalValue(s[1..]));
      if next <= MaxUint64 {
        ScanAllDigits(s[1..], next);
      }
    }
  }

  /** The loop stops at the first non-digit, unless the digits before it already overflow. */
  lemma {:induction false} ScanStopsAtNonDigit(s: Bytes, acc: nat, j: nat)
    requires acc <= MaxUint64
    requires j < |s| && AllDigits(s[..j]) && !IsDigit(s[j])
    ensures ScanDigits(s, acc) ==
      (if acc * Pow10(j) + DecimalValue(s[..j]) <= MaxUint64
       then Err(InvalidSyntax)
       else Err(OutOfRange))
    decreases j
  {
    if j > 0 {
      assert s[0] == s[..j][0];
      DecimalCons(s[..j]);
      assert s[..j][1..] == s[1..][..j - 1];
      var d := DigitValue(s[0]);
      var next := acc * 10 + d;
      var p := Pow10(j - 1);
      Regroup(acc, d, p, DecimalValue(s[1..][..j - 1]));
      if next <= MaxUint64 {
        ScanStopsAtNonDigit(s[1..], next, j - 1);
      }
    }
  }

  /**
   Atoi succeeds exactly on well-formed inputs whose value fits in 64 bits,
   and then returns that value.
   */
  lemma AtoiMeaning(s: Bytes)
    ensures Atoi(s).Ok? <==> WellFormed(s) && Int64Min <= IntegerValue(s) <= Int64Max
    ensures Atoi(s).Ok? ==> Atoi(s).value == IntegerValue(s)
  {
    var digits := Unsigned(s);
    if WellFormed(s) {
      ScanAllDigits(digits, 0);
      assert 0 * Pow10(|digits|) + DecimalValue(digits) == DecimalValue(digits);
    } else if |digits| > 0 {
      var j := FirstNonDigit(digits);
      ScanStopsAtNonDigit(digits, 0, j);
    }
  }

  /** A well-formed input outside the 64-bit range is a range error. */
  lemma AtoiRangeError(s: Bytes)
    requires WellFormed(s) && !(Int64Min <= IntegerValue(s) <= Int64Max)
    ensures Atoi(s) == Err(NumError(OutOfRange, s))
  {
    var digits := Unsigned(s);
    ScanAllDigits(digits, 0);
    assert 0 * Pow10(|digits|) + DecimalValue(digits) == DecimalValue(digits);
  }

  /**
   A malformed input of at most 20 bytes is a syntax error: too few digits
   precede its first bad byte for the range check to fire first.
   */
  lemma AtoiSyntaxError(s: Bytes)
    requires !WellFormed(s) && |s| <= 20
    ensures Atoi(s) == Err(NumError(InvalidSyntax, s))
  {
    var digits := Unsigned(s);
    if |digits| > 0 {
      var j := FirstNonDigit(digits);
      ScanStopsAtNonDigit(digits, 0, j);
      DecimalBound(digits[..j]);
      Pow10Monotone(j, 19);
      Pow10Add(10, 9);
      assert Pow10(10) == 10_000_000_000 && Pow10(9) == 1_000_000_000;
    }
  }

  /**
   A malformed input fails at its first non-digit after the sign: a syntax
   error, unless the digits before that byte already exceed 64 unsigned
   bits, in which case the range error wins.
   */
  lemma AtoiMalformed(s: Bytes, j: nat)
    requires j < |Unsigned(s)|
    requires AllDigits(Unsigned(s)[..j]) && !IsDigit(Unsigned(s)[j])
    ensures Atoi(s) == Err(NumError(
      if DecimalValue(Unsigned(s)[..j]) <= MaxUint64 then InvalidSyntax else OutOfRange, s))
  {
    ScanStopsAtNonDigit(Unsigned(s), 0, j);
  }
}
