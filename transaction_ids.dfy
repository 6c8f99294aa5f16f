/**
 * Transaction identifiers: the 64-bit counter kept in the counter row, and the text
 * `yyyyMMdd-00000.NNNNN` built from the date and the incremented counter.
 */
module TransactionIds {
  import opened Wrappers

  const MinLong: int := -0x8000_0000_0000_0000
  const MaxLong: int := 0x7FFF_FFFF_FFFF_FFFF

  /** The range of a C# `long`, the type the counter value is read into. */
  type Int64 = x: int | MinLong <= x <= MaxLong

  /** `counterValue++` on a `long`: C# arithmetic is unchecked, so MaxLong wraps to MinLong. */
  function NextNumber(c: Int64): (r: Int64)
    ensures r != c
    ensures (r - c) % (MaxLong - MinLong + 1) == 1
  {
    if c == MaxLong then MinLong else c + 1
  }

  // ----- decimal digits -----

  predicate IsDigit(c: char) {
    '0' <= c <= '9'
  }

  predicate AllDigits(s: string) {
    forall i :: 0 <= i < |s| ==> IsDigit(s[i])
  }

  function DigitChar(d: nat): char
    requires d < 10
  {
    ('0' as int + d) as char
  }

  function DigitValue(c: char): nat
    requires IsDigit(c)
  {
    c as int - '0' as int
  }

  function Pow10(k: nat): nat {
    if k == 0 then 1 else 10 * Pow10(k - 1)
  }

  /** The decimal digits of `n`, most significant first, without leading zeros ("0" for zero). */
  function Digits(n: nat): (s: string)
    ensures |s| >= 1 && AllDigits(s)
    decreases n
  {
    if n < 10 then [DigitChar(n)] else Digits(n / 10) + [DigitChar(n % 10)]
  }

  /** The value of a string of decimal digits (the empty string reads as 0). */
  function ParseNat(s: string): nat
    requires AllDigits(s)
  {
    if s == [] then 0 else 10 * ParseNat(s[..|s| - 1]) + DigitValue(s[|s| - 1])
  }

  function Zeros(k: nat): (z: string)
    ensures |z| == k && AllDigits(z)
  {
    if k == 0 then [] else Zeros(k - 1) + ['0']
  }

  /**
   * `s` left-padded with '0' to at least `width` characters: the precision of a
   * standard "D" format string, and the repetition of y, M and d in a date pattern.
   */
  function PadLeft(s: string, width: nat): (r: string)
    ensures |r| == if |s| < width then width else |s|
  {
    if |s| < width then Zeros(width - |s|) + s else s
  }

  // ----- calendar dates -----

  datatype DateParts = DateParts(year: int, month: int, day: int)

  predicate IsLeapYear(year: int) {
    year % 4 == 0 && (year % 100 != 0 || year % 400 == 0)
  }

  function DaysInMonth(year: int, month: int): int {
    if month == 2 then (if IsLeapYear(year) then 29 else 28)
    else if month == 4 || month == 6 || month == 9 || month == 11 then 30
    else 31
  }

  predicate ValidDate(d: DateParts) {
    && 1 <= d.year <= 9999
    && 1 <= d.month <= 12
    && 1 <= d.day <= DaysInMonth(d.year, d.month)
  }

  /** A calendar date in the range of a .NET `DateTime`. */
  type Date = d: DateParts | ValidDate(d) witness DateParts(1, 1, 1)

  /** The date formatted with the pattern "yyyyMMdd". */
  function DatePart(d: Date): string {
    PadLeft(Digits(d.year), 4) + PadLeft(Digits(d.month), 2) + PadLeft(Digits(d.day), 2)
  }

  /** The counter formatted with "D5": at least five digits, a minus sign first when negative. */
  function CounterPart(n: Int64): string {
    if n < 0 then "-" + PadLeft(Digits(-(n as int)), 5) else PadLeft(Digits(n), 5)
  }

  /** The fixed text between the date and the counter. */
  const Infix: string := "-00000."

  /** The identifier built from the date part and the new counter value. */
  function FormatId(today: Date, n: Int64): string {
    DatePart(today) + Infix + CounterPart(n)
  }

  // ----- reading an identifier back -----

  datatype IdParts = IdParts(date: DateParts, counter: int)

  function ParseCounter(s: string): Option<int> {
    if |s| > 0 && s[0] == '-' && AllDigits(s[1..]) then Some(0 - ParseNat(s[1..]) as int)
    else if AllDigits(s) then Some(ParseNat(s))
    else None
  }

  /** The date and counter an identifier was built from, or None when it has not that shape. */
  function ParseId(id: string): Option<IdParts> {
    if |id| >= 15 && AllDigits(id[..8]) && id[8..15] == Infix then
      match ParseCounter(id[15..])
      case None => None
      case Some(n) =>
        Some(IdParts(DateParts(ParseNat(id[..4]), ParseNat(id[4..6]), ParseNat(id[6..8])), n))
    else None
  }

  // ----- lemmas -----

  lemma {:induction false} ParseDigits(n: nat)
    ensures ParseNat(Digits(n)) == n
    decreases n
  {
    if n >= 10 {
      var s := Digits(n);
      assert s[..|s| - 1] == Digits(n / 10);
      ParseDigits(n / 10);
    }
  }

  lemma {:induction false} ParseLeadingZeros(k: nat, s: string)
    requires AllDigits(s)
    ensures AllDigits(Zeros(k) + s) && ParseNat(Zeros(k) + s) == ParseNat(s)
    decreases |s|
  {
    var z := Zeros(k) + s;
    if s == [] {
      assert z == Zeros(k);
      ZerosReadAsZero(k);
    } else {
      assert z[..|z| - 1] == Zeros(k) + s[..|s| - 1];
      ParseLeadingZeros(k, s[..|s| - 1]);
    }
  }

  lemma {:induction false} ZerosReadAsZero(k: nat)
    ensures ParseNat(Zeros(k)) == 0
  {
    if k > 0 {
      assert Zeros(k)[..k - 1] == Zeros(k - 1);
      ZerosReadAsZero(k - 1);
    }
  }

  lemma {:induction false} DigitsLength(n: nat, w: nat)
    requires 0 < w && n < Pow10(w)
    ensures |Digits(n)| <= w
    decreases n
  {
    if n >= 10 {
      assert Pow10(w) == 10 * Pow10(w - 1);
      assert n / 10 < Pow10(w - 1);
      DigitsLength(n / 10, w - 1);
      assert |Digits(n)| == |Digits(n / 10)| + 1;
    }
  }

  /** Padding a digit string only puts '0's in front of it, so it stays digits and keeps its value. */
  lemma PadLeftKeepsValue(s: string, width: nat)
    requires AllDigits(s)
    ensures PadLeft(s, width) == Zeros(|PadLeft(s, width)| - |s|) + s
    ensures AllDigits(PadLeft(s, width)) && ParseNat(PadLeft(s, width)) == ParseNat(s)
  {
    if |s| < width {
      ParseLeadingZeros(width - |s|, s);
    } else {
      assert Zeros(0) + s == s;
    }
  }

  /** Padding does not change the value of a number's digits. */
  lemma ParsePadded(n: nat, width: nat)
    ensures AllDigits(PadLeft(Digits(n), width))
    ensures ParseNat(PadLeft(Digits(n), width)) == n
  {
    ParseDigits(n);
    PadLeftKeepsValue(Digits(n), width);
  }

  /** A number below 10^width fills exactly `width` characters once padded. */
  lemma PaddedWidth(n: nat, width: nat)
    requires 0 < width && n < Pow10(width)
    ensures |PadLeft(Digits(n), width)| == width
  {
    DigitsLength(n, width);
  }

  /** A date part is eight digits that read back as year, month and day. */
  lemma DatePartRoundTrip(d: Date)
    ensures |DatePart(d)| == 8 && AllDigits(DatePart(d))
    ensures ParseNat(DatePart(d)[..4]) == d.year
    ensures ParseNat(DatePart(d)[4..6]) == d.month
    ensures ParseNat(DatePart(d)[6..8]) == d.day
  {
    assert Pow10(2) == 100 && Pow10(4) == 10000;
    var y, m, dd := PadLeft(Digits(d.year), 4), PadLeft(Digits(d.month), 2), PadLeft(Digits(d.day), 2);
    PaddedWidth(d.year, 4);
    PaddedWidth(d.month, 2);
    PaddedWidth(d.day, 2);
    ParsePadded(d.year, 4);
    ParsePadded(d.month, 2);
    ParsePadded(d.day, 2);
    var s := y + m + dd;
    assert s == DatePart(d);
    assert s[..4] == y;
    assert s[4..6] == m;
    assert s[6..8] == dd;
  }

  /** Digits preceded by a minus sign read back as the negated value. */
  lemma ParseNegative(p: string)
    requires AllDigits(p)
    ensures ParseCounter("-" + p) == Some(0 - ParseNat(p) as int)
  {
    assert ("-" + p)[1..] == p;
  }

  /** A string of digits reads back as its value. */
  lemma ParseNonNegative(p: string)
    requires |p| > 0 && AllDigits(p)
    ensures ParseCounter(p) == Some(ParseNat(p) as int)
  {
    assert IsDigit(p[0]);
  }

  /** A counter part reads back as the counter it was formatted from. */
  lemma CounterPartRoundTrip(n: Int64)
    ensures ParseCounter(CounterPart(n)) == Some(n as int)
  {
    if n < 0 {
      var m: nat := -(n as int);
      ParsePadded(m, 5);
      ParseNegative(PadLeft(Digits(m), 5));
    } else {
      var m: nat := n;
      ParsePadded(m, 5);
      ParseNonNegative(PadLeft(Digits(m), 5));
    }
  }

  /** Eight date digits, the infix and a counter part read back as the date fields and the counter. */
  lemma ParseAssembled(dp: string, cp: string, d: DateParts, n: int)
    requires |dp| == 8 && AllDigits(dp)
    requires ParseNat(dp[..4]) == d.year && ParseNat(dp[4..6]) == d.month && ParseNat(dp[6..8]) == d.day
    requires ParseCounter(cp) == Some(n)
    ensures ParseId(dp + Infix + cp) == Some(IdParts(d, n))
  {
    var id := dp + Infix + cp;
    assert id[..8] == dp;
    assert id[8..15] == Infix;
    assert id[15..] == cp;
    assert id[..4] == dp[..4];
    assert id[4..6] == dp[4..6];
    assert id[6..8] == dp[6..8];
  }

  /** Decoding an identifier recovers the date and the counter it was built from. */
  lemma IdRoundTrip(today: Date, n: Int64)
    ensures ParseId(FormatId(today, n)) == Some(IdParts(today, n))
  {
    DatePartRoundTrip(today);
    CounterPartRoundTrip(n);
    ParseAssembled(DatePart(today), CounterPart(n), today, n);
  }

  /** Two identifiers are equal only when they come from the same date and the same counter. */
  lemma FormatIdInjective(d1: Date, n1: Int64, d2: Date, n2: Int64)
    requires FormatId(d1, n1) == FormatId(d2, n2)
    ensures d1 == d2 && n1 == n2
  {
    IdRoundTrip(d1, n1);
    IdRoundTrip(d2, n2);
  }
}
