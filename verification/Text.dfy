/** The C string routines the modelled programs rely on: NUL-terminated text,
    "%d" as printf writes it and as sscanf reads it. */
module Text {

  datatype Option<+T> = None | Some(value: T)

  /** What a C program sees of a byte buffer: the characters before the first NUL. */
  function CStr(buffer: string): (s: string)
    ensures |s| <= |buffer| && s == buffer[..|s|]
    ensures forall i :: 0 <= i < |s| ==> s[i] != '\0'
    ensures |s| < |buffer| ==> buffer[|s|] == '\0'
  {
    if buffer == "" || buffer[0] == '\0' then "" else [buffer[0]] + CStr(buffer[1..])
  }

  ghost predicate NoNul(s: string) {
    forall i :: 0 <= i < |s| ==> s[i] != '\0'
  }

  /** Terminating a text and reading it back is the identity, whatever follows the NUL. */
  lemma CStrTerminated(s: string, rest: string)
    requires NoNul(s)
    ensures CStr(s + ['\0'] + rest) == s
  {
    var b := s + ['\0'] + rest;
    var r := CStr(b);
    assert b[|s|] == '\0';
    assert forall i :: 0 <= i < |s| ==> b[i] == s[i];
    assert |r| >= |s|;
  }

  const DIGITS := "0123456789"

  predicate IsDigit(c: char) {
    '0' <= c <= '9'
  }

  function DigitValue(c: char): (d: nat)
    requires IsDigit(c)
    ensures d < 10
  {
    c as int - '0' as int
  }

  function Digits(n: nat): (s: string)
    ensures s != "" && forall i :: 0 <= i < |s| ==> IsDigit(s[i])
  {
    if n < 10 then [DIGITS[n]] else Digits(n / 10) + [DIGITS[n % 10]]
  }

  /** printf's "%d" and "%ld". */
  function Decimal(n: int): string {
    if n < 0 then "-" + Digits(-n) else Digits(n)
  }

  function Number(s: string): nat
    requires forall i :: 0 <= i < |s| ==> IsDigit(s[i])
  {
    if s == "" then 0 else 10 * Number(s[..|s| - 1]) + DigitValue(s[|s| - 1])
  }

  function LeadingDigits(s: string): (d: string)
    ensures forall i :: 0 <= i < |d| ==> IsDigit(d[i])
  {
    if s == "" || !IsDigit(s[0]) then "" else [s[0]] + LeadingDigits(s[1..])
  }

  /** sscanf's "%d": an optional sign, then as many digits as there are. */
  function ScanInt(s: string): Option<int> {
    var negative := s != "" && s[0] == '-';
    var d := LeadingDigits(if s != "" && (s[0] == '-' || s[0] == '+') then s[1..] else s);
    var magnitude: int := Number(d);
    if d == "" then None else Some(if negative then -magnitude else magnitude)
  }

  lemma {:induction false} NumberOfDigits(n: nat)
    ensures Number(Digits(n)) == n
  {
    if n >= 10 {
      NumberOfDigits(n / 10);
      assert Digits(n)[..|Digits(n)| - 1] == Digits(n / 10);
    }
  }

  lemma {:induction false} LeadingDigitsOf(s: string, rest: string)
    requires forall i :: 0 <= i < |s| ==> IsDigit(s[i])
    requires rest == "" || !IsDigit(rest[0])
    ensures LeadingDigits(s + rest) == s
  {
    if s == "" {
      assert s + rest == rest;
    } else {
      LeadingDigitsOf(s[1..], rest);
      assert (s + rest)[1..] == s[1..] + rest;
    }
  }

  /** Whatever integer printf wrote, sscanf reads back. */
  lemma ScanDecimal(n: int)
    ensures ScanInt(Decimal(n)) == Some(n)
  {
    var d := Digits(if n < 0 then -n else n);
    NumberOfDigits(if n < 0 then -n else n);
    LeadingDigitsOf(d, "");
    assert d + "" == d;
    if n < 0 {
      assert Decimal(n)[1..] == d;
    }
  }

  function Pow10(k: nat): nat {
    if k == 0 then 1 else 10 * Pow10(k - 1)
  }

  lemma {:induction false} DigitsLength(n: nat, k: nat)
    requires 1 <= k && n < Pow10(k)
    ensures |Digits(n)| <= k
  {
    if n >= 10 {
      assert k > 1;
      DigitsLength(n / 10, k - 1);
    }
  }

  lemma DecimalHasNoNul(n: int)
    ensures NoNul(Decimal(n))
  {
  }

  /** A 32-bit int takes at most 11 characters. */
  lemma IntLength(n: int)
    requires -0x8000_0000 <= n < 0x8000_0000
    ensures |Decimal(n)| <= 11
  {
    assert Pow10(10) == 10_000_000_000 by {
      assert Pow10(5) == 100000;
      assert Pow10(10) == 10 * (10 * (10 * (10 * (10 * Pow10(5)))));
    }
    DigitsLength(if n < 0 then -n else n, 10);
  }
}
