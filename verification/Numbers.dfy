/** Numbers as they are written into messages and configuration text: "%lu" and "0x%lx". */
module Numbers {
  import opened Common

  predicate IsDigit(c: char, base: nat)
  {
    ('0' <= c <= '9' && c as int - '0' as int < base) || ('a' <= c <= 'f' && c as int - 'a' as int + 10 < base)
  }

  function DigitValue(c: char): nat
    requires IsDigit(c, 16)
  {
    if c <= '9' then c as int - '0' as int else c as int - 'a' as int + 10
  }

  function Digit(d: nat): (c: char)
    requires d < 16
    ensures IsDigit(c, 16) && DigitValue(c) == d
    ensures forall base: nat :: d < base ==> IsDigit(c, base)
  {
    if d < 10 then ('0' as int + d) as char else ('a' as int + d - 10) as char
  }

  /** The two bases in use: decimal for sizes, hexadecimal for addresses. */
  type Base = b: nat | b == 10 || b == 16 witness 10

  function Quotient(n: nat, base: Base): (q: nat)
    ensures n >= base ==> q < n
  {
    if base == 10 then n / 10 else n / 16
  }

  function LastDigit(n: nat, base: Base): (d: nat)
    ensures d < base
  {
    if base == 10 then n % 10 else n % 16
  }

  /** Digits of n, most significant first, without leading zeros. */
  function Print(n: nat, base: Base): (s: seq<char>)
    ensures s != []
    decreases n
  {
    if n < base then [Digit(n)] else Print(Quotient(n, base), base) + [Digit(LastDigit(n, base))]
  }

  ghost predicate AllDigits(s: seq<char>, base: nat)
  {
    forall i :: 0 <= i < |s| ==> IsDigit(s[i], base)
  }

  lemma {:induction false} PrintDigits(n: nat, base: Base)
    ensures AllDigits(Print(n, base), base)
    decreases n
  {
    if n >= base { PrintDigits(Quotient(n, base), base); }
  }

  /** How many leading characters are digits. */
  function DigitsLen(s: seq<char>, base: nat): (n: nat)
    ensures n <= |s| && (n < |s| ==> !IsDigit(s[n], base))
    ensures forall i :: 0 <= i < n ==> IsDigit(s[i], base)
  {
    if s == [] || !IsDigit(s[0], base) then 0 else 1 + DigitsLen(s[1..], base)
  }

  function Append(v: nat, d: nat, base: Base): nat
  {
    if base == 10 then v * 10 + d else v * 16 + d
  }

  /** The number a run of digits stands for. */
  function Value(s: seq<char>, base: Base): nat
    requires AllDigits(s, base)
  {
    if s == [] then 0
    else
      assert IsDigit(s[|s|-1], base);
      Append(Value(s[..|s|-1], base), DigitValue(s[|s|-1]), base)
  }

  /** A successful scan: the number and how many characters it took. */
  datatype Scanned = Scanned(value: nat, len: nat)

  /** sscanf() with "%lu" or "%lx": the longest run of digits. */
  function Scan(s: seq<char>, base: Base): Option<Scanned>
  {
    var n := DigitsLen(s, base);
    if n == 0 then None else Some(Scanned(Value(s[..n], base), n))
  }

  /** "0x%lx" as a conversion. */
  function PrintPtr(p: nat): seq<char>
  {
    "0x" + Print(p, 16)
  }

  function ScanPtr(s: seq<char>): Option<Scanned>
  {
    if |s| < 2 || s[..2] != "0x" then None
    else match Scan(s[2..], 16)
      case None => None
      case Some(r) => Some(Scanned(r.value, r.len + 2))
  }

  lemma {:induction false} ValueOfPrint(n: nat, base: Base)
    ensures AllDigits(Print(n, base), base) && Value(Print(n, base), base) == n
    decreases n
  {
    PrintDigits(n, base);
    var s := Print(n, base);
    if n < base {
      assert s[..|s|-1] == [];
      assert Value([], base) == 0;
    } else {
      ValueOfPrint(Quotient(n, base), base);
      assert s[..|s|-1] == Print(Quotient(n, base), base);
      assert Append(Quotient(n, base), LastDigit(n, base), base) == n;
    }
  }

  lemma {:induction false} DigitsLenOf(s: seq<char>, rest: seq<char>, base: nat)
    requires AllDigits(s, base) && (rest == [] || !IsDigit(rest[0], base))
    ensures DigitsLen(s + rest, base) == |s|
    decreases |s|
  {
    if s == [] {
      assert s + rest == rest;
    } else {
      assert (s + rest)[1..] == s[1..] + rest;
      DigitsLenOf(s[1..], rest, base);
    }
  }

  /** Scanning what was printed yields the number and stops right behind it. */
  lemma {:induction false} ScanPrinted(n: nat, base: Base, rest: seq<char>)
    requires rest == [] || !IsDigit(rest[0], base)
    ensures Scan(Print(n, base) + rest, base) == Some(Scanned(n, |Print(n, base)|))
  {
    var s := Print(n, base);
    PrintDigits(n, base);
    DigitsLenOf(s, rest, base);
    assert (s + rest)[..|s|] == s;
    ValueOfPrint(n, base);
  }

  lemma {:induction false} ScanPrintedPtr(p: nat, rest: seq<char>)
    requires rest == [] || !IsDigit(rest[0], 16)
    ensures ScanPtr(PrintPtr(p) + rest) == Some(Scanned(p, |PrintPtr(p)|))
  {
    var s := PrintPtr(p) + rest;
    assert s[..2] == "0x";
    assert s[2..] == Print(p, 16) + rest;
    ScanPrinted(p, 16, rest);
  }

  lemma {:induction false} DigitsLenStops(s: seq<char>, rest: seq<char>, base: nat)
    requires rest != [] && !IsDigit(rest[0], base)
    ensures DigitsLen(s + rest, base) == DigitsLen(s, base)
    decreases |s|
  {
    if s == [] {
      assert s + rest == rest;
    } else if IsDigit(s[0], base) {
      assert (s + rest)[1..] == s[1..] + rest;
      DigitsLenStops(s[1..], rest, base);
    }
  }

  /** A scan does not depend on what follows a character that is no digit. */
  lemma {:induction false} ScanPtrStops(s: seq<char>, rest: seq<char>)
    requires ScanPtr(s).Some? && rest != [] && !IsDigit(rest[0], 16)
    ensures ScanPtr(s + rest) == ScanPtr(s)
  {
    assert (s + rest)[..2] == s[..2];
    assert (s + rest)[2..] == s[2..] + rest;
    DigitsLenStops(s[2..], rest, 16);
    var n := DigitsLen(s[2..], 16);
    assert (s[2..] + rest)[..n] == s[2..][..n];
  }

  function Power(base: Base, k: nat): (p: nat)
    ensures p >= 1
  {
    if k == 0 then 1 else if base == 10 then 10 * Power(base, k - 1) else 16 * Power(base, k - 1)
  }

  /** How many digits a number takes. */
  lemma {:induction false} PrintedLength(n: nat, base: Base, d: nat)
    requires 1 <= d && n < Power(base, d) && (d > 1 ==> Power(base, d - 1) <= n)
    ensures |Print(n, base)| == d
  {
    if d > 1 {
      PrintedLength(Quotient(n, base), base, d - 1);
    }
  }
}
