/** What several components share: optional values, bytes, C strings, decimal numbers. */
module Basics {

  datatype Option<+T> = None | Some(value: T)

  type byte = x: int | 0 <= x < 256
  type Bytes = seq<byte>

  function Least(x: nat, y: nat): nat {
    if x < y then x else y
  }

  function Zeros(n: nat): (z: Bytes)
    ensures |z| == n && forall i :: 0 <= i < n ==> z[i] == 0
  {
    seq(n, _ => 0)
  }

  /** The bytes up to the first NUL: a byte buffer read as a C string. */
  function CString(b: Bytes): (s: Bytes)
    ensures 0 !in s && s <= b && (|s| < |b| ==> b[|s|] == 0)
    ensures 0 !in b ==> s == b
  {
    if b == [] || b[0] == 0 then [] else [b[0]] + CString(b[1..])
  }

  predicate IsDigit(c: char) {
    '0' <= c <= '9'
  }

  function Digit(n: nat): (c: char)
    requires n < 10
    ensures IsDigit(c) && DigitValue(c) == n
  {
    ('0' as int + n) as char
  }

  function DigitValue(c: char): (n: nat)
    requires IsDigit(c)
    ensures n < 10
  {
    c as int - '0' as int
  }

  /** %d of a non-negative number. */
  function Decimal(n: nat): (d: string)
    ensures d != "" && forall i :: 0 <= i < |d| ==> IsDigit(d[i])
  {
    if n < 10 then [Digit(n)] else Decimal(n / 10) + [Digit(n % 10)]
  }

  /** The number a run of digits stands for. */
  function DecimalNumber(digits: string): nat
    requires forall i :: 0 <= i < |digits| ==> IsDigit(digits[i])
  {
    if digits == "" then 0
    else 10 * DecimalNumber(digits[..|digits| - 1]) + DigitValue(digits[|digits| - 1])
  }

  lemma {:induction false} DecimalRoundTrip(n: nat)
    ensures DecimalNumber(Decimal(n)) == n
  {
    if n >= 10 {
      DecimalRoundTrip(n / 10);
      assert Decimal(n)[..|Decimal(n)| - 1] == Decimal(n / 10);
    }
  }

  function PowerOfTen(k: nat): nat {
    if k == 0 then 1 else 10 * PowerOfTen(k - 1)
  }

  lemma {:induction false} DecimalLength(n: nat, k: nat)
    requires k > 0 && n < PowerOfTen(k)
    ensures |Decimal(n)| <= k
  {
    if n >= 10 { DecimalLength(n / 10, k - 1); }
  }

  /** The number that decimal digits in ASCII stand for. */
  function NumberOf(digits: Bytes): nat
    requires forall i :: 0 <= i < |digits| ==> 48 <= digits[i] <= 57
  {
    if digits == [] then 0 else 10 * NumberOf(digits[..|digits| - 1]) + (digits[|digits| - 1] - 48)
  }

  /** The bytes are the text, a blank and the number in decimal, without leading zeros. */
  ghost predicate Says(r: Bytes, text: Bytes, number: nat) {
    && |r| > |text| + 1 && r[..|text|] == text && r[|text|] == 32
    && (forall i :: |text| < i < |r| ==> 48 <= r[i] <= 57)
    && NumberOf(r[|text| + 1..]) == number
    && (|r| > |text| + 2 ==> r[|text| + 1] != 48)
  }
}
