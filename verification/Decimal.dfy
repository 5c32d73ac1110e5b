/** The decimal conversions of printf and scanf that the sources rely on:
    `%llu`, `%zu`, `%u`, `%d`, `%ld` and `%ld.%ld`. */
module Decimal {

  type UInt32 = n: int | 0 <= n < 0x1_0000_0000
  type UInt64 = n: int | 0 <= n < 0x1_0000_0000_0000_0000
  type Int64 = n: int | -0x8000_0000_0000_0000 <= n < 0x8000_0000_0000_0000

  /** struct timespec */
  datatype Time = Time(sec: Int64, nsec: Int64)

  predicate IsDigit(c: char) {
    '0' <= c <= '9'
  }

  predicate AllDigits(s: string) {
    forall i :: 0 <= i < |s| ==> IsDigit(s[i])
  }

  function DigitChar(d: nat): char
    requires d < 10
  {
    ('0' as int + d) as char
  }

  function DigitValue(c: char): nat {
    if IsDigit(c) then c as int - '0' as int else 0
  }

  /** Addition of size_t values wraps around at 2^64. */
  function AddUInt64(a: UInt64, b: UInt64): UInt64 {
    if a + b < 0x1_0000_0000_0000_0000 then a + b else a + b - 0x1_0000_0000_0000_0000
  }

  /** n modulo 2^64 */
  function Modulo64(n: nat): UInt64 {
    if n < 0x1_0000_0000_0000_0000 then n else Modulo64(n - 0x1_0000_0000_0000_0000)
  }

  lemma {:induction false} AddModulo64(a: nat, b: UInt64)
    ensures AddUInt64(Modulo64(a), b) == Modulo64(a + b)
  {
    if a >= 0x1_0000_0000_0000_0000 {
      AddModulo64(a - 0x1_0000_0000_0000_0000, b);
    }
  }

  /** The recursive form is the remainder. */
  lemma {:induction false} Modulo64IsRemainder(n: nat)
    ensures Modulo64(n) == n % 0x1_0000_0000_0000_0000
  {
    if n >= 0x1_0000_0000_0000_0000 {
      Modulo64IsRemainder(n - 0x1_0000_0000_0000_0000);
    }
  }

  // ----- printf -----

  // Division by ten is written by recursion, which keeps the solver out of division.

  function Tens(n: nat): nat {
    if n < 10 then 0 else 1 + Tens(n - 10)
  }

  function Ones(n: nat): (d: nat)
    ensures d < 10
  {
    if n < 10 then n else Ones(n - 10)
  }

  lemma {:induction false} TensAndOnes(n: nat)
    ensures Tens(n) == n / 10 && Ones(n) == n % 10
    ensures n == 10 * Tens(n) + Ones(n)
  {
    if n >= 10 {
      TensAndOnes(n - 10);
    }
  }

  function PrintNat(n: nat): string {
    if n < 10 then [DigitChar(n)]
    else
      TensAndOnes(n);
      PrintNat(Tens(n)) + [DigitChar(Ones(n))]
  }

  function PrintInt(i: int): string {
    if i < 0 then "-" + PrintNat(-i) else PrintNat(i)
  }

  function PrintTime(t: Time): string {
    PrintInt(t.sec) + "." + PrintInt(t.nsec)
  }

  // ----- scanf -----

  predicate IsSpace(c: char) {
    c == ' ' || '\t' <= c <= '\r'
  }

  function SkipSpace(s: string): string {
    if s != "" && IsSpace(s[0]) then SkipSpace(s[1..]) else s
  }

  /** Length of the longest prefix of decimal digits. */
  function DigitRun(s: string): (n: nat)
    ensures n <= |s|
  {
    if s != "" && IsDigit(s[0]) then 1 + DigitRun(s[1..]) else 0
  }

  function DigitsValue(s: string): nat {
    if s == "" then 0 else 10 * DigitsValue(s[..|s| - 1]) + DigitValue(s[|s| - 1])
  }

  /** One integer conversion: either the input does not match, or a value and the unread rest. */
  datatype Scan = NoMatch | Match(value: int, rest: string)

  function Signed(v: int, negative: bool): int {
    if negative then -v else v
  }

  function ScanDigits(s: string, negative: bool): Scan {
    var n := DigitRun(s);
    if n == 0 then NoMatch
    else
      var v: int := DigitsValue(s[..n]);
      Match(Signed(v, negative), s[n..])
  }

  function ScanInt(s: string): Scan {
    var t := SkipSpace(s);
    if t != "" && t[0] == '-' then ScanDigits(t[1..], true)
    else if t != "" && t[0] == '+' then ScanDigits(t[1..], false)
    else ScanDigits(t, false)
  }

  // A value outside the range of its target is undefined in C (ISO C, 7.21.6.2), so what is stored
  // then is left open: these constants have no value here, and every lemma holds for all of them.

  const UNDEFINED_UINT64: int -> UInt64
  const UNDEFINED_UINT32: int -> UInt32
  const UNDEFINED_INT32: int -> UInt32
  const UNDEFINED_INT64: int -> Int64

  /** "%llu" and "%zu" accept a sign and negate in 64 bits. */
  function ToUInt64(v: int): UInt64 {
    if 0 <= v < 0x1_0000_0000_0000_0000 then v
    else if -0x1_0000_0000_0000_0000 < v < 0 then v + 0x1_0000_0000_0000_0000
    else UNDEFINED_UINT64(v)
  }

  function ToUInt32(v: int): UInt32 {
    if 0 <= v < 0x1_0000_0000 then v else UNDEFINED_UINT32(v)
  }

  /** The bits of an int, stored into an unsigned. */
  function ToInt32Bits(v: int): UInt32 {
    if 0 <= v < 0x8000_0000 then v
    else if -0x8000_0000 <= v < 0 then v + 0x1_0000_0000
    else UNDEFINED_INT32(v)
  }

  function ToInt64(v: int): Int64 {
    if -0x8000_0000_0000_0000 <= v < 0x8000_0000_0000_0000 then v else UNDEFINED_INT64(v)
  }

  /** sscanf(s, "%llu", &x) or "%zu": a mismatch leaves x as it was. */
  function ScanUInt64(s: string, previous: UInt64): UInt64 {
    match ScanInt(s)
    case NoMatch => previous
    case Match(v, _) => ToUInt64(v)
  }

  /** sscanf(s, "%d", (unsigned *) &x) */
  function ScanIntInto(s: string, previous: UInt32): UInt32 {
    match ScanInt(s)
    case NoMatch => previous
    case Match(v, _) => ToInt32Bits(v)
  }

  /** sscanf(s, "%u", &x) */
  function ScanUInt32(s: string, previous: UInt32): UInt32 {
    match ScanInt(s)
    case NoMatch => previous
    case Match(v, _) => ToUInt32(v)
  }

  /** sscanf(s, "%ld.%ld", &t.sec, &t.nsec): stops at the first mismatch. */
  function ScanTime(s: string, previous: Time): Time {
    match ScanInt(s)
    case NoMatch => previous
    case Match(sec, rest) =>
      if rest == "" || rest[0] != '.' then previous.(sec := ToInt64(sec))
      else
        match ScanInt(rest[1..])
        case NoMatch => previous.(sec := ToInt64(sec))
        case Match(nsec, _) => Time(ToInt64(sec), ToInt64(nsec))
  }

  // ----- printing and scanning undo each other -----

  lemma {:induction false} PrintNatValue(n: nat)
    ensures DigitsValue(PrintNat(n)) == n
  {
    var s := PrintNat(n);
    if n < 10 {
      assert s[..|s| - 1] == "";
    } else {
      TensAndOnes(n);
      PrintNatValue(Tens(n));
      assert s[..|s| - 1] == PrintNat(Tens(n));
    }
  }

  lemma {:induction false} PrintNatDigits(n: nat)
    ensures PrintNat(n) != "" && AllDigits(PrintNat(n))
  {
    if n >= 10 {
      TensAndOnes(n);
      PrintNatDigits(Tens(n));
    }
  }

  lemma {:induction false} DigitRunOf(ds: string, rest: string)
    requires AllDigits(ds)
    requires rest != "" ==> !IsDigit(rest[0])
    ensures DigitRun(ds + rest) == |ds|
  {
    if ds == "" {
      assert ds + rest == rest;
    } else {
      DigitRunOf(ds[1..], rest);
      assert (ds + rest)[1..] == ds[1..] + rest;
    }
  }

  lemma ScanPrintNat(n: nat, rest: string, negative: bool)
    requires rest != "" ==> !IsDigit(rest[0])
    ensures ScanDigits(PrintNat(n) + rest, negative) == Match(Signed(n, negative), rest)
  {
    var ds := PrintNat(n);
    PrintNatDigits(n);
    DigitRunOf(ds, rest);
    PrintNatValue(n);
    assert (ds + rest)[..|ds|] == ds && (ds + rest)[|ds|..] == rest;
  }

  lemma ScanUnsignedText(n: nat, rest: string)
    requires rest != "" ==> !IsDigit(rest[0])
    ensures ScanInt(PrintNat(n) + rest) == Match(n, rest)
  {
    var ds := PrintNat(n);
    var s := ds + rest;
    PrintNatDigits(n);
    assert s[0] == ds[0] && IsDigit(ds[0]);
    assert SkipSpace(s) == s;
    ScanPrintNat(n, rest, false);
  }

  lemma ScanSignedText(n: nat, rest: string)
    requires rest != "" ==> !IsDigit(rest[0])
    ensures ScanInt("-" + (PrintNat(n) + rest)) == Match(Signed(n, true), rest)
  {
    var t := PrintNat(n) + rest;
    var s := "-" + t;
    assert SkipSpace(s) == s;
    ScanPrintNat(n, rest, true);
    assert s[0] == '-' && s[1..] == t;
  }

  /** Scanning the text of any integer gives the integer back and stops right behind it. */
  lemma ScanPrintInt(i: int, rest: string)
    requires rest != "" ==> !IsDigit(rest[0])
    ensures ScanInt(PrintInt(i) + rest) == Match(i, rest)
  {
    hide ScanInt, PrintNat;
    if i < 0 {
      var n: nat := -i;
      ScanSignedText(n, rest);
      assert PrintInt(i) == "-" + PrintNat(n);
      assert ("-" + PrintNat(n)) + rest == "-" + (PrintNat(n) + rest);
    } else {
      ScanUnsignedText(i, rest);
    }
  }

  lemma ScanPrintUInt64(n: UInt64, previous: UInt64)
    ensures ScanInt(PrintNat(n)) == Match(n, "")
    ensures ScanUInt64(PrintNat(n), previous) == n
  {
    ScanPrintInt(n, "");
    assert PrintInt(n) + "" == PrintNat(n);
  }

  lemma ScanPrintIntInto(n: UInt32, previous: UInt32)
    requires n < 0x8000_0000
    ensures ScanIntInto(PrintNat(n), previous) == n
  {
    ScanPrintUInt64(n, 0);
  }

  lemma ScanPrintUInt32(n: UInt32, previous: UInt32)
    ensures ScanUInt32(PrintNat(n), previous) == n
  {
    ScanPrintUInt64(n, 0);
  }

  /** `%ld.%ld` is unpadded and signed, yet every pair of 64-bit values survives. */
  lemma ScanPrintTime(t: Time, previous: Time)
    ensures ScanTime(PrintTime(t), previous) == t
  {
    var nsec := PrintInt(t.nsec);
    var rest := "." + nsec;
    assert PrintTime(t) == PrintInt(t.sec) + rest;
    assert rest[0] == '.' && rest[1..] == nsec == nsec + "";
    ScanPrintInt(t.sec, rest);
    ScanPrintInt(t.nsec, "");
  }
}
