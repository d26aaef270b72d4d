/** Decimal text of dates: what the date strings of the application are built from and read as. */
module DateText {
  import opened Wrappers
  import opened Calendar

  const DIGITS := "0123456789"

  function DecimalNat(n: nat): (s: string)
    ensures |s| >= 1
  {
    if n < 10 then [DIGITS[n]] else DecimalNat(n / 10) + [DIGITS[n % 10]]
  }

  /** String(n) for an integer. */
  function Decimal(n: int): string {
    if n < 0 then "-" + DecimalNat(-n) else DecimalNat(n)
  }

  /** padStart(width, "0"). */
  function PadStart(s: string, width: nat): (p: string)
    ensures |p| == if |s| < width then width else |s|
    decreases if |s| < width then width - |s| else 0
  {
    if |s| < width then PadStart("0" + s, width) else s
  }

  function FormatDate(c: Civil): string {
    PadStart(Decimal(c.year), 4) + "-" + PadStart(Decimal(c.month + 1), 2) + "-" + PadStart(Decimal(c.day), 2)
  }

  predicate IsDigit(c: char) {
    '0' <= c <= '9'
  }

  function DigitValue(c: char): int {
    c as int - '0' as int
  }

  predicate AllDigits(s: string) {
    forall i :: 0 <= i < |s| ==> IsDigit(s[i])
  }

  function Number2(s: string): int
    requires |s| == 2
  {
    10 * DigitValue(s[0]) + DigitValue(s[1])
  }

  function Number4(s: string): int
    requires |s| == 4
  {
    100 * Number2(s[..2]) + Number2(s[2..])
  }

  /** The match of `^(\d{4})-(\d{2})-(\d{2})$`, its groups as numbers, the month counted from 0. */
  function ParseDate(s: string): Option<Civil> {
    if |s| == 10 && AllDigits(s[..4]) && s[4] == '-' && AllDigits(s[5..7]) && s[7] == '-' && AllDigits(s[8..])
    then Some(Civil(Number4(s[..4]), Number2(s[5..7]) - 1, Number2(s[8..])))
    else None
  }

  function Digits2(n: int): (s: string)
    requires 0 <= n < 100
    ensures |s| == 2
  {
    [DIGITS[n / 10], DIGITS[n % 10]]
  }

  function Digits4(n: int): (s: string)
    requires 0 <= n < 10000
    ensures |s| == 4
  {
    Digits2(n / 100) + Digits2(n % 100)
  }

  lemma DigitIs(n: int)
    requires 0 <= n < 10
    ensures IsDigit(DIGITS[n]) && DigitValue(DIGITS[n]) == n
  {
  }

  lemma Digits2Read(n: int)
    requires 0 <= n < 100
    ensures AllDigits(Digits2(n)) && Number2(Digits2(n)) == n
  {
    DigitIs(n / 10);
    DigitIs(n % 10);
  }

  lemma Digits4Read(n: int)
    requires 0 <= n < 10000
    ensures AllDigits(Digits4(n)) && Number4(Digits4(n)) == n
  {
    hide Digits2, Number2;
    Digits2Read(n / 100);
    Digits2Read(n % 100);
    assert Digits4(n)[..2] == Digits2(n / 100) && Digits4(n)[2..] == Digits2(n % 100);
    forall i | 0 <= i < 4 ensures IsDigit(Digits4(n)[i]) {
      assert Digits4(n)[i] == if i < 2 then Digits2(n / 100)[i] else Digits2(n % 100)[i - 2];
    }
  }

  lemma Pad2Is(n: int)
    requires 0 <= n < 100
    ensures PadStart(Decimal(n), 2) == Digits2(n)
  {
    if n < 10 {
      assert Decimal(n) == [DIGITS[n]];
      assert PadStart([DIGITS[n]], 2) == PadStart("0" + [DIGITS[n]], 2) == "0" + [DIGITS[n]];
    } else {
      assert DecimalNat(n / 10) == [DIGITS[n / 10]];
      assert PadStart(Decimal(n), 2) == Decimal(n);
    }
  }

  lemma DecimalSplits(n: int)
    requires 100 <= n
    ensures Decimal(n) == DecimalNat(n / 100) + Digits2(n % 100)
  {
    assert n / 10 / 10 == n / 100 && n % 100 / 10 == n / 10 % 10 && n % 100 % 10 == n % 10;
    assert DecimalNat(n) == DecimalNat(n / 10) + [DIGITS[n % 10]];
    assert DecimalNat(n / 10) == DecimalNat(n / 10 / 10) + [DIGITS[n / 10 % 10]];
  }

  lemma PadShort(s: string)
    ensures |s| == 1 ==> PadStart(s, 2) == "0" + s
    ensures |s| == 2 ==> PadStart(s, 2) == s && PadStart(s, 4) == "00" + s
    ensures |s| == 3 ==> PadStart(s, 4) == "0" + s
    ensures |s| == 4 ==> PadStart(s, 4) == s
  {
    if |s| == 1 { assert PadStart("0" + s, 2) == "0" + s; }
    if |s| == 2 {
      assert PadStart("0" + ("0" + s), 4) == "0" + ("0" + s);
      assert PadStart(s, 4) == PadStart("0" + s, 4) == PadStart("0" + ("0" + s), 4);
      assert "0" + ("0" + s) == "00" + s;
    }
    if |s| == 3 { assert PadStart("0" + s, 4) == "0" + s; }
  }

  lemma Digits4Splits(n: int)
    requires 0 <= n < 10000
    ensures Digits4(n) == Digits2(n / 100) + Digits2(n % 100)
    ensures n < 100 ==> Digits4(n) == "00" + Digits2(n)
  {
    hide Digits2;
    if n < 100 { assert Digits2(0) == "00" by { ZeroDigits(); } }
  }

  lemma ZeroDigits()
    ensures Digits2(0) == "00"
  {
  }

  lemma Pad4Is(n: int)
    requires 0 <= n < 10000
    ensures PadStart(Decimal(n), 4) == Digits4(n)
  {
    hide PadStart, Decimal, DecimalNat, Digits4, Digits2;
    Digits4Splits(n);
    if n < 100 {
      Pad2Is(n);
      PadAgain(Decimal(n), 2, 4);
      PadShort(Digits2(n));
    } else {
      DecimalSplits(n);
      Pad2Is(n / 100);
      var s := DecimalNat(n / 100);
      assert Decimal(n / 100) == s && |s| == (if n < 1000 then 1 else 2) by { DecimalLength(n / 100); }
      PadShort(s);
      PadShort(s + Digits2(n % 100));
      assert "0" + (s + Digits2(n % 100)) == ("0" + s) + Digits2(n % 100);
    }
  }

  lemma DecimalLength(n: int)
    requires 0 <= n < 100
    ensures Decimal(n) == DecimalNat(n) && |DecimalNat(n)| == if n < 10 then 1 else 2
  {
  }

  lemma {:induction false} PadAgain(s: string, narrow: nat, wide: nat)
    requires narrow <= wide
    ensures PadStart(PadStart(s, narrow), wide) == PadStart(s, wide)
    decreases narrow - |s|
  {
    if |s| >= narrow {
    } else {
      PadAgain("0" + s, narrow, wide);
    }
  }

  lemma FormatDateIs(c: Civil)
    requires 0 <= c.year < 10000 && RealDate(c)
    ensures FormatDate(c) == Digits4(c.year) + "-" + Digits2(c.month + 1) + "-" + Digits2(c.day)
    ensures |FormatDate(c)| == 10
  {
    Pad4Is(c.year);
    Pad2Is(c.month + 1);
    Pad2Is(c.day);
  }

  /** Writing a date of a year 0 to 9999 and reading it gives the date. */
  lemma ParseFormat(c: Civil)
    requires 0 <= c.year < 10000 && RealDate(c)
    ensures ParseDate(FormatDate(c)) == Some(c)
  {
    hide PadStart, Decimal, Digits4, Digits2, Number4, Number2, AllDigits, FormatDate;
    FormatDateIs(c);
    var s := FormatDate(c);
    assert s[..4] == Digits4(c.year) && s[5..7] == Digits2(c.month + 1) && s[8..] == Digits2(c.day);
    assert s[4] == '-' && s[7] == '-';
    Digits4Read(c.year);
    Digits2Read(c.month + 1);
    Digits2Read(c.day);
  }

  lemma DigitsOfNumber2(s: string)
    requires |s| == 2 && AllDigits(s)
    ensures 0 <= Number2(s) < 100 && Digits2(Number2(s)) == s
  {
    assert IsDigit(s[0]) && IsDigit(s[1]);
    var n := Number2(s);
    assert n / 10 == DigitValue(s[0]) && n % 10 == DigitValue(s[1]);
    DigitChar(s[0]);
    DigitChar(s[1]);
  }

  lemma DigitChar(c: char)
    requires IsDigit(c)
    ensures DIGITS[DigitValue(c)] == c
  {
  }

  lemma DigitsOfNumber4(s: string)
    requires |s| == 4 && AllDigits(s)
    ensures 0 <= Number4(s) < 10000 && Digits4(Number4(s)) == s
  {
    hide Digits2, Number2;
    DigitsOfNumber2(s[..2]);
    DigitsOfNumber2(s[2..]);
    assert s == s[..2] + s[2..];
  }

  /** Reading a real date and writing it gives the text back. */
  lemma FormatParse(s: string)
    requires ParseDate(s).Some? && RealDate(ParseDate(s).value)
    ensures 0 <= ParseDate(s).value.year < 10000
    ensures FormatDate(ParseDate(s).value) == s
  {
    hide Digits4, Digits2, Number4, Number2, AllDigits, FormatDate;
    var c := ParseDate(s).value;
    DigitsOfNumber4(s[..4]);
    DigitsOfNumber2(s[5..7]);
    DigitsOfNumber2(s[8..]);
    FormatDateIs(c);
    assert s == s[..4] + [s[4]] + s[5..7] + [s[7]] + s[8..];
  }

  // ---------------------------------------------------------------- years the format cannot hold

  lemma LongDecimal(n: nat)
    requires n >= 1000
    ensures |DecimalNat(n)| >= 4
    ensures n >= 10000 ==> |DecimalNat(n)| >= 5
  {
    DecimalSplits(n);
    if n >= 10000 { DecimalSplits(n / 100); }
  }

  /** A year outside 0 to 9999 makes text that the pattern rejects. */
  lemma OddYearsDoNotParse(c: Civil)
    requires RealDate(c) && !(0 <= c.year < 10000)
    ensures ParseDate(FormatDate(c)).None?
  {
    Pad2Is(c.month + 1);
    Pad2Is(c.day);
    var y := PadStart(Decimal(c.year), 4);
    var s := FormatDate(c);
    assert |s| == |y| + 6;
    if c.year >= 10000 {
      LongDecimal(c.year);
    } else if c.year <= -1000 {
      LongDecimal(-c.year);
    } else {
      MinusStays(Decimal(c.year), 4);
      if |s| == 10 {
        var k :| 0 <= k < |y| && y[k] == '-';
        assert s[..4] == y;
        assert !IsDigit(y[k]);
      }
    }
  }

  lemma {:induction false} MinusStays(s: string, width: nat)
    requires '-' in s
    ensures '-' in PadStart(s, width)
    decreases width - |s|
  {
    if |s| >= width {
    } else {
      MinusStays("0" + s, width);
    }
  }

  // ---------------------------------------------------------------- order of text

  /** `a < b` for strings, by code units. */
  predicate TextBefore(a: string, b: string) {
    if b == [] then false
    else if a == [] then true
    else a[0] < b[0] || (a[0] == b[0] && TextBefore(a[1..], b[1..]))
  }

  lemma TextBeforeStep(c: char, d: char, s: string, t: string)
    ensures TextBefore([c] + s, [d] + t) <==> c < d || (c == d && TextBefore(s, t))
  {
    assert ([c] + s)[1..] == s && ([d] + t)[1..] == t;
  }

  lemma DigitOrder(m: int, n: int)
    requires 0 <= m < 10 && 0 <= n < 10
    ensures DIGITS[m] < DIGITS[n] <==> m < n
    ensures DIGITS[m] == DIGITS[n] <==> m == n
  {
    DigitIs(m);
    DigitIs(n);
  }

  lemma Digits2Order(m: int, n: int, s: string, t: string)
    requires 0 <= m < 100 && 0 <= n < 100
    ensures TextBefore(Digits2(m) + s, Digits2(n) + t) <==> m < n || (m == n && TextBefore(s, t))
  {
    hide TextBefore;
    DigitOrder(m / 10, n / 10);
    DigitOrder(m % 10, n % 10);
    assert Digits2(m) + s == [DIGITS[m / 10]] + ([DIGITS[m % 10]] + s);
    assert Digits2(n) + t == [DIGITS[n / 10]] + ([DIGITS[n % 10]] + t);
    TextBeforeStep(DIGITS[m / 10], DIGITS[n / 10], [DIGITS[m % 10]] + s, [DIGITS[n % 10]] + t);
    TextBeforeStep(DIGITS[m % 10], DIGITS[n % 10], s, t);
  }

  lemma Digits4Order(m: int, n: int, s: string, t: string)
    requires 0 <= m < 10000 && 0 <= n < 10000
    ensures TextBefore(Digits4(m) + s, Digits4(n) + t) <==> m < n || (m == n && TextBefore(s, t))
  {
    hide TextBefore, Digits2;
    assert Digits4(m) + s == Digits2(m / 100) + (Digits2(m % 100) + s);
    assert Digits4(n) + t == Digits2(n / 100) + (Digits2(n % 100) + t);
    Digits2Order(m / 100, n / 100, Digits2(m % 100) + s, Digits2(n % 100) + t);
    Digits2Order(m % 100, n % 100, s, t);
  }

  /** Text order of written dates is date order. */
  lemma TextOrderIsDateOrder(a: Civil, b: Civil)
    requires RealDate(a) && RealDate(b) && 0 <= a.year < 10000 && 0 <= b.year < 10000
    ensures TextBefore(FormatDate(a), FormatDate(b)) <==> Earlier(a, b)
  {
    hide TextBefore, Digits2, Digits4, FormatDate;
    FormatDateIs(a);
    FormatDateIs(b);
    var a1 := "-" + (Digits2(a.month + 1) + ("-" + Digits2(a.day)));
    var b1 := "-" + (Digits2(b.month + 1) + ("-" + Digits2(b.day)));
    assert FormatDate(a) == Digits4(a.year) + a1 && FormatDate(b) == Digits4(b.year) + b1;
    Digits4Order(a.year, b.year, a1, b1);
    TextBeforeStep('-', '-', Digits2(a.month + 1) + ("-" + Digits2(a.day)),
                   Digits2(b.month + 1) + ("-" + Digits2(b.day)));
    Digits2Order(a.month + 1, b.month + 1, "-" + Digits2(a.day), "-" + Digits2(b.day));
    TextBeforeStep('-', '-', Digits2(a.day), Digits2(b.day));
    Digits2Order(a.day, b.day, "", "");
    assert Digits2(a.day) + "" == Digits2(a.day) && Digits2(b.day) + "" == Digits2(b.day);
    assert !TextBefore("", "") by { EmptyText(); }
  }

  lemma EmptyText()
    ensures !TextBefore("", "")
  {
  }
}
