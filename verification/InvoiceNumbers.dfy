/**
  Invoice numbers as text: ELY, the year, and the count padded to six digits.
 */
module InvoiceNumbers {
  import opened Sequences

  const WIDTH := 6
  const DASH := '-'

  function Digit(d: nat): char
    requires d < 10
  {
    '0' + d as char
  }

  /** Number.toString, in decimal. */
  function Digits(n: nat): (s: string)
    ensures s != ""
  {
    if n < 10 then [Digit(n)] else Digits(n / 10) + [Digit(n % 10)]
  }

  predicate IsDigit(c: char) { '0' <= c <= '9' }

  /** The value of a decimal numeral; leading zeros add nothing. */
  function Read(s: string): nat {
    if s == "" || !IsDigit(s[|s| - 1]) then 0
    else 10 * Read(s[..|s| - 1]) + (s[|s| - 1] - '0') as nat
  }

  function PadStart(s: string, width: nat, fill: char): string
    decreases width - |s|
  {
    if |s| < width then PadStart([fill] + s, width, fill) else s
  }

  /** createInvoiceNumber, for the invoice that is number `k` of all and this year. */
  function Number(year: nat, k: nat): string {
    "ELY-" + Digits(year) + "-" + PadStart(Digits(k), WIDTH, '0')
  }

  /** The value after the last dash of an invoice number. */
  function Suffix(number: string): nat {
    var parts := Split(number, DASH);
    Read(parts[|parts| - 1])
  }

  lemma {:induction false} DigitsRead(n: nat)
    ensures Read(Digits(n)) == n && forall c :: c in Digits(n) ==> IsDigit(c)
  {
    if n < 10 {
      assert Digits(n)[..0] == "";
    } else {
      DigitsRead(n / 10);
      var s := Digits(n);
      assert s[..|s| - 1] == Digits(n / 10);
    }
  }

  lemma {:induction false} LeadingZero(s: string)
    requires forall c :: c in s ==> IsDigit(c)
    ensures Read(['0'] + s) == Read(s)
  {
    var t := ['0'] + s;
    if s == "" {
      assert t[..0] == "";
    } else {
      assert t[..|t| - 1] == ['0'] + s[..|s| - 1];
      LeadingZero(s[..|s| - 1]);
    }
  }

  lemma {:induction false} PaddingReads(s: string, width: nat)
    requires forall c :: c in s ==> IsDigit(c)
    ensures Read(PadStart(s, width, '0')) == Read(s)
    ensures forall c :: c in PadStart(s, width, '0') ==> IsDigit(c)
    ensures |PadStart(s, width, '0')| == if |s| < width then width else |s|
    decreases width - |s|
  {
    if |s| < width {
      LeadingZero(s);
      PaddingReads(['0'] + s, width);
    }
  }

  lemma NumberSplits(year: nat, k: nat)
    ensures Split(Number(year, k), DASH) == ["ELY", Digits(year), PadStart(Digits(k), WIDTH, '0')]
  {
    var y, p := Digits(year), PadStart(Digits(k), WIDTH, '0');
    DigitsRead(year);
    DigitsRead(k);
    PaddingReads(Digits(k), WIDTH);
    assert Number(year, k) == "ELY" + [DASH] + (y + [DASH] + p);
    SplitConcat("ELY", DASH, y + [DASH] + p);
    SplitConcat(y, DASH, p);
    SplitWithout("ELY", DASH);
    SplitWithout(y, DASH);
    SplitWithout(p, DASH);
  }

  /** The suffix reads back as the count, of any size: past six digits there is no padding. */
  lemma SuffixReadsBack(year: nat, k: nat)
    ensures Suffix(Number(year, k)) == k
    ensures k >= 1000000 ==> Number(year, k) == "ELY-" + Digits(year) + "-" + Digits(k)
  {
    NumberSplits(year, k);
    DigitsRead(k);
    PaddingReads(Digits(k), WIDTH);
    if k >= 1000000 {
      DigitsLength(k, WIDTH);
    }
  }

  /** The last digit of a numeral, and what is before it. */
  lemma LastDigit(s: string)
    requires s != "" && forall c :: c in s ==> IsDigit(c)
    ensures s[|s| - 1] == Digit(Read(s) % 10) && Read(s[..|s| - 1]) == Read(s) / 10
  {
    assert s[|s| - 1] in s;
  }

  lemma LastTwoDigits(s: string)
    requires |s| >= 2 && forall c :: c in s ==> IsDigit(c)
    ensures var k, n := Read(s), |s|;
            && s[n - 1] == Digit(k % 10) && s[n - 2] == Digit(k / 10 % 10)
            && Read(s[..n - 2]) == k / 100
  {
    LastDigit(s);
    LastDigit(s[..|s| - 1]);
    assert s[..|s| - 1][..|s| - 2] == s[..|s| - 2];
  }

  lemma SixDigits(s: string)
    requires |s| == 6 && forall c :: c in s ==> IsDigit(c)
    ensures var k := Read(s);
            s == [Digit(k / 100000 % 10), Digit(k / 10000 % 10), Digit(k / 1000 % 10),
                  Digit(k / 100 % 10), Digit(k / 10 % 10), Digit(k % 10)]
  {
    var k := Read(s);
    LastTwoDigits(s);
    LastTwoDigits(s[..4]);
    LastTwoDigits(s[..2]);
    Hundreds(k);
    assert s[..4][..2] == s[..2] && s[..2][..0] == "";
    assert s == [s[..2][0], s[..2][1], s[..4][2], s[..4][3], s[4], s[5]];
  }

  lemma Hundreds(k: nat)
    ensures k / 1000 == k / 100 / 10 && k / 10000 == k / 100 / 100 && k / 100000 == k / 100 / 100 / 10
  {}

  /** Up to a million the count is written with exactly six digits. */
  lemma NumberSpelled(year: nat, k: nat)
    requires k < 1000000
    ensures Number(year, k)
            == "ELY-" + Digits(year) + "-"
               + [Digit(k / 100000 % 10), Digit(k / 10000 % 10), Digit(k / 1000 % 10),
                  Digit(k / 100 % 10), Digit(k / 10 % 10), Digit(k % 10)]
  {
    DigitsRead(k);
    PaddingReads(Digits(k), WIDTH);
    DigitsAtMost(k, 6);
    SixDigits(PadStart(Digits(k), WIDTH, '0'));
  }

  lemma {:induction false} DigitsAtMost(k: nat, n: nat)
    requires n > 0
    ensures k < Power(n) ==> |Digits(k)| <= n
    ensures Power(6) == 1000000
  {
    if n > 1 {
      DigitsAtMost(k / 10, n - 1);
    } else {
      assert Power(1) == 10 * Power(0) && Power(2) == 100 && Power(4) == 100 * Power(2);
    }
  }

  /** The seventh invoice of all, in 2025. */
  lemma SeventhOf2025()
    ensures Number(2025, 7) == "ELY-2025-000007"
  {
    NumberSpelled(2025, 7);
    assert Digits(202) == Digits(20) + "2" && Digits(20) == Digits(2) + "0";
    assert Digits(2025) == "2025";
  }

  function Power(n: nat): nat { if n == 0 then 1 else 10 * Power(n - 1) }

  lemma {:induction false} DigitsLength(k: nat, n: nat)
    ensures k >= Power(n) ==> |Digits(k)| > n
  {
    if n > 0 && k >= Power(n) {
      assert Power(n - 1) >= 1 by { PowerPositive(n - 1); }
      DigitsLength(k / 10, n - 1);
    }
  }

  lemma {:induction false} PowerPositive(n: nat)
    ensures Power(n) >= 1
  {
    if n > 0 { PowerPositive(n - 1); }
  }

  /** Different years or counts give different numbers. */
  lemma NumberInjective(y1: nat, k1: nat, y2: nat, k2: nat)
    ensures Number(y1, k1) == Number(y2, k2) <==> y1 == y2 && k1 == k2
  {
    NumberSplits(y1, k1);
    NumberSplits(y2, k2);
    SuffixReadsBack(y1, k1);
    SuffixReadsBack(y2, k2);
    DigitsRead(y1);
    DigitsRead(y2);
  }
}
