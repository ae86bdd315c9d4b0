/**
 The printed Cantidad of backend/modules/fiscal/cfdi_builder.py and a decimal reader for it.
 Quantities are naturals counted in millionths.
 */
module QuantityText {
  import opened Text
  import opened Cents

  const DOT: char := '.'

  /** The k lowest decimal digits of `n`, with leading zeros. */
  function Digits(n: nat, k: nat): (s: string)
    ensures |s| == k && forall c :: c in s ==> IsDigit(c)
  {
    if k == 0 then "" else Digits(n / 10, k - 1) + [Digit(n % 10)]
  }

  /** `f"{q:.6f}"` */
  function SixDecimals(q: nat): string { Dec(q / 1000000) + [DOT] + Digits(q % 1000000, 6) }

  /** `f"{q:.2f}"`, rounded half to even */
  function TwoDecimals(q: nat): string {
    var h := HalfEven(q, 10000);
    Dec(h / 100) + [DOT] + Digits(h % 100, 2)
  }

  /** `s.rstrip(c)` */
  function RStrip(s: string, c: char): string {
    if s != "" && s[|s| - 1] == c then RStrip(s[..|s| - 1], c) else s
  }

  /** `s.split('.')` of a text with at most one dot: what is before it, and what is after it if it is there. */
  function SplitDot(s: string): (r: (string, Option<string>))
    ensures DOT !in r.0
    ensures r.1.None? ==> r.0 == s
    ensures r.1.Some? ==> s == r.0 + [DOT] + r.1.value
  {
    if s == "" then ("", None)
    else if s[0] == DOT then ("", Some(s[1..]))
    else
      var r := SplitDot(s[1..]);
      ([s[0]] + r.0, r.1)
  }

  /** `qty_str` of `_build_conceptos`. */
  function PrintQuantity(q: nat): string {
    var s := RStrip(RStrip(SixDecimals(q), '0'), DOT);
    match SplitDot(s).1
    case None => s + ".00"
    case Some(decimals) => if |decimals| < 2 then TwoDecimals(q) else s
  }

  /** `f"{qty:.2f}"` of `_build_conceptos_credit_note`. */
  function PrintNoteQuantity(q: nat): string { TwoDecimals(q) }

  // ---------------------------------------------------------------- the reader

  /** n with k zeros after it */
  function Times10(n: nat, k: nat): nat
    decreases k
  {
    if k == 0 then n else Times10(10 * n, k - 1)
  }

  predicate AllDigits(s: string) { forall c :: c in s ==> IsDigit(c) }

  function Millionths(whole: string, decimals: string): nat
    requires AllDigits(whole) && AllDigits(decimals) && |decimals| <= 6
  {
    1000000 * Value(whole) + Times10(Value(decimals), 6 - |decimals|)
  }

  /** Reads `digits.digits` with at most six decimals, in millionths. */
  function ReadQuantity(s: string): Option<nat> {
    match SplitDot(s)
    case (_, None) => None
    case (whole, Some(decimals)) =>
      if whole != "" && AllDigits(whole) && AllDigits(decimals) && |decimals| <= 6
      then Some(Millionths(whole, decimals)) else None
  }

  function Decimals(s: string): nat {
    match SplitDot(s).1
    case None => 0
    case Some(decimals) => |decimals|
  }

  // ---------------------------------------------------------------- proofs

  function Power10(k: nat): nat { if k == 0 then 1 else 10 * Power10(k - 1) }

  lemma {:induction false} DigitsValue(n: nat, k: nat)
    requires n < Power10(k)
    ensures Value(Digits(n, k)) == n
  {
    if k == 0 {
    } else {
      DigitsValue(n / 10, k - 1);
      assert Digits(n, k)[..k - 1] == Digits(n / 10, k - 1);
    }
  }

  lemma {:induction false} SplitDotAt(a: string, b: string)
    requires DOT !in a
    ensures SplitDot(a + [DOT] + b) == (a, Some(b))
  {
    var s := a + [DOT] + b;
    if a == "" {
      assert s == [DOT] + b;
      assert s[1..] == b;
    } else {
      assert s[0] == a[0] && a[0] in a;
      assert s[1..] == a[1..] + [DOT] + b;
      SplitDotAt(a[1..], b);
      assert a == [a[0]] + a[1..];
    }
  }

  lemma DecHasNoDot(n: nat)
    ensures DOT !in Dec(n)
  {
  }

  lemma ReadsDigits(whole: string, decimals: string)
    requires whole != "" && |decimals| <= 6 && AllDigits(whole) && AllDigits(decimals) && DOT !in whole
    ensures ReadQuantity(whole + [DOT] + decimals) == Some(Millionths(whole, decimals))
    ensures Decimals(whole + [DOT] + decimals) == |decimals|
  {
    SplitDotAt(whole, decimals);
  }

  /** A text of a whole part and k decimals, by the numbers its two parts stand for. */
  lemma ReadsNumbers(whole: string, decimals: string, a: nat, b: nat, k: nat)
    requires whole != "" && |decimals| == k <= 6 && AllDigits(whole) && AllDigits(decimals) && DOT !in whole
    requires Value(whole) == a && Value(decimals) == b
    ensures ReadQuantity(whole + [DOT] + decimals) == Some(1000000 * a + Times10(b, 6 - k))
    ensures Decimals(whole + [DOT] + decimals) == k
  {
    ReadsDigits(whole, decimals);
  }

  /** The two parts of a printed text, with what they stand for. */
  lemma PrintedParts(whole: nat, n: nat, k: nat) returns (w: string, d: string)
    requires n < Power10(k)
    ensures w == Dec(whole) && w != "" && AllDigits(w) && DOT !in w && Value(w) == whole
    ensures d == Digits(n, k) && |d| == k && AllDigits(d) && Value(d) == n
  {
    w, d := Dec(whole), Digits(n, k);
    DecHasNoDot(whole);
    ValueOfDec(whole);
    DigitsValue(n, k);
  }

  lemma ReadsBack(whole: nat, n: nat, k: nat)
    requires k <= 6 && n < Power10(k)
    ensures ReadQuantity(Dec(whole) + [DOT] + Digits(n, k)) == Some(1000000 * whole + Times10(n, 6 - k))
    ensures Decimals(Dec(whole) + [DOT] + Digits(n, k)) == k
  {
    var w, d := PrintedParts(whole, n, k);
    ReadsNumbers(w, d, whole, n, k);
  }

  /** The digits of `n` without its trailing zeros: the shorter number and its length. */
  function Significant(n: nat, k: nat): (r: (nat, nat))
    requires n < Power10(k)
    ensures r.1 <= k && r.0 < Power10(r.1)
    ensures n > 0 ==> r.1 > 0 && r.0 % 10 != 0
    ensures n == 0 ==> r == (0, 0)
  {
    if k == 0 || n % 10 != 0 then (n, k) else Significant(n / 10, k - 1)
  }

  lemma {:induction false} Times10Once(n: nat, k: nat)
    ensures Times10(n, k + 1) == 10 * Times10(n, k)
    decreases k
  {
    if k == 0 {
    } else {
      Times10Once(10 * n, k - 1);
    }
  }

  lemma {:induction false} SignificantValue(n: nat, k: nat)
    requires n < Power10(k)
    ensures Times10(Significant(n, k).0, k - Significant(n, k).1) == n
  {
    if k == 0 || n % 10 != 0 {
    } else {
      SignificantValue(n / 10, k - 1);
      var r := Significant(n / 10, k - 1);
      Times10Once(r.0, k - 1 - r.1);
    }
  }

  /** Stripping zeros after the point leaves the significant digits. */
  lemma {:induction false} StripZeros(pre: string, n: nat, k: nat)
    requires n < Power10(k) && pre != "" && pre[|pre| - 1] == DOT
    ensures RStrip(pre + Digits(n, k), '0') == pre + Digits(Significant(n, k).0, Significant(n, k).1)
  {
    var s := pre + Digits(n, k);
    if k == 0 {
      assert s == pre;
    } else {
      assert s[..|s| - 1] == pre + Digits(n / 10, k - 1);
      assert s[|s| - 1] == Digit(n % 10);
      if n % 10 == 0 {
        StripZeros(pre, n / 10, k - 1);
      }
    }
  }

  lemma SixStripped(q: nat)
    ensures var r := Significant(q % 1000000, 6);
            RStrip(RStrip(SixDecimals(q), '0'), DOT) ==
            if r.1 == 0 then Dec(q / 1000000) else Dec(q / 1000000) + [DOT] + Digits(r.0, r.1)
  {
    var whole, r := Dec(q / 1000000), Significant(q % 1000000, 6);
    assert Power10(6) == 1000000;
    StripZeros(whole + [DOT], q % 1000000, 6);
    var s := whole + [DOT] + Digits(r.0, r.1);
    assert RStrip(SixDecimals(q), '0') == s;
    if r.1 == 0 {
      assert s == whole + [DOT];
      assert s[..|s| - 1] == whole;
      assert whole[|whole| - 1] in whole && !IsDigit(DOT);
    } else {
      assert s[|s| - 1] == Digits(r.0, r.1)[r.1 - 1];
      assert Digits(r.0, r.1)[r.1 - 1] in Digits(r.0, r.1) && !IsDigit(DOT);
    }
  }

  lemma Times10Fixed(n: nat)
    ensures Times10(n, 4) == 10000 * n && Times10(n, 5) == 100000 * n
  {
  }

  lemma TwoReadsBack(q: nat)
    ensures ReadQuantity(TwoDecimals(q)) == Some(10000 * HalfEven(q, 10000)) && Decimals(TwoDecimals(q)) == 2
  {
    var h := HalfEven(q, 10000);
    assert Power10(2) == 100;
    ReadsBack(h / 100, h % 100, 2);
    Times10Fixed(h % 100);
  }

  lemma TenthsAreHundredths(q: nat, d: nat)
    requires q % 1000000 == 100000 * d
    ensures q % 10000 == 0 && HalfEven(q, 10000) * 10000 == q
  {
    assert q == 10000 * (100 * (q / 1000000) + 10 * d);
  }

  /** A text without a point gets two zeros. */
  lemma WholeText(q: nat, whole: string)
    requires RStrip(RStrip(SixDecimals(q), '0'), DOT) == whole && DOT !in whole
    ensures PrintQuantity(q) == whole + ".00"
  {
  }

  lemma NoCents()
    ensures ".00" == [DOT] + Digits(0, 2)
  {
  }

  lemma WholePrints(q: nat)
    requires q % 1000000 == 0
    ensures PrintQuantity(q) == Dec(q / 1000000) + [DOT] + Digits(0, 2)
  {
    var whole := Dec(q / 1000000);
    SixStripped(q);
    DecHasNoDot(q / 1000000);
    WholeText(q, whole);
    NoCents();
    Regroup(whole, [DOT], Digits(0, 2));
  }

  lemma WholeComesBack(q: nat)
    requires q % 1000000 == 0
    ensures ReadQuantity(PrintQuantity(q)) == Some(q) && Decimals(PrintQuantity(q)) == 2
  {
    WholePrints(q);
    assert Power10(2) == 100;
    ReadsBack(q / 1000000, 0, 2);
    Times10Fixed(0);
  }

  lemma FractionPrints(q: nat)
    requires q % 1000000 != 0
    ensures var r := Significant(q % 1000000, 6);
            PrintQuantity(q) == if r.1 < 2 then TwoDecimals(q) else Dec(q / 1000000) + [DOT] + Digits(r.0, r.1)
  {
    var whole, r := Dec(q / 1000000), Significant(q % 1000000, 6);
    SixStripped(q);
    DecHasNoDot(q / 1000000);
    SplitDotAt(whole, Digits(r.0, r.1));
  }

  lemma OneDigit(n: nat)
    requires 0 < n < Power10(6) && Significant(n, 6).1 < 2
    ensures n == 100000 * Significant(n, 6).0
  {
    SignificantValue(n, 6);
    Times10Fixed(Significant(n, 6).0);
  }

  lemma ShortFractionComesBack(q: nat)
    requires q % 1000000 != 0 && Significant(q % 1000000, 6).1 < 2
    ensures ReadQuantity(PrintQuantity(q)) == Some(q) && Decimals(PrintQuantity(q)) == 2
  {
    OneDigit(q % 1000000);
    TenthsAreHundredths(q, Significant(q % 1000000, 6).0);
    FractionPrints(q);
    TwoReadsBack(q);
  }

  lemma LongFractionComesBack(q: nat)
    requires q % 1000000 != 0 && Significant(q % 1000000, 6).1 >= 2
    ensures ReadQuantity(PrintQuantity(q)) == Some(q) && 2 <= Decimals(PrintQuantity(q)) <= 6
  {
    var r := Significant(q % 1000000, 6);
    SignificantValue(q % 1000000, 6);
    FractionPrints(q);
    ReadsBack(q / 1000000, r.0, r.1);
  }

  /** The printed quantity reads back as the quantity, and shows two to six decimals. */
  lemma QuantityComesBack(q: nat)
    ensures ReadQuantity(PrintQuantity(q)) == Some(q)
    ensures 2 <= Decimals(PrintQuantity(q)) <= 6
  {
    if q % 1000000 == 0 {
      WholeComesBack(q);
    } else {
      assert Power10(6) == 1000000;
      if Significant(q % 1000000, 6).1 < 2 {
        ShortFractionComesBack(q);
      } else {
        LongFractionComesBack(q);
      }
    }
  }

  /** What stands before the point, and that no zero ends more than two decimals. */
  predicate IsShort(s: string, q: nat) {
    && SplitDot(s).0 == Dec(q / 1000000)
    && s != "" && (Decimals(s) > 2 ==> s[|s| - 1] != '0')
  }

  lemma TwoDecimalsAreShort(q: nat)
    requires HalfEven(q, 10000) * 10000 == q
    ensures IsShort(TwoDecimals(q), q)
  {
    var h := HalfEven(q, 10000);
    assert h / 100 == q / 1000000;
    DecHasNoDot(h / 100);
    SplitDotAt(Dec(h / 100), Digits(h % 100, 2));
  }

  lemma DigitsAreShort(q: nat, n: nat, k: nat)
    requires k > 0 && n % 10 != 0
    ensures IsShort(Dec(q / 1000000) + [DOT] + Digits(n, k), q)
  {
    DecHasNoDot(q / 1000000);
    SplitDotAt(Dec(q / 1000000), Digits(n, k));
    assert Digits(n, k)[k - 1] == Digit(n % 10);
  }

  lemma WholeIsShort(q: nat)
    requires q % 1000000 == 0
    ensures IsShort(PrintQuantity(q), q)
  {
    WholePrints(q);
    WholeComesBack(q);
    DecHasNoDot(q / 1000000);
    SplitDotAt(Dec(q / 1000000), Digits(0, 2));
  }

  /** The printed quantity is the shortest: the whole part without leading zeros, and no zero after two decimals. */
  lemma QuantityIsShort(q: nat)
    ensures IsShort(PrintQuantity(q), q)
  {
    if q % 1000000 == 0 {
      WholeIsShort(q);
    } else {
      assert Power10(6) == 1000000;
      var r := Significant(q % 1000000, 6);
      FractionPrints(q);
      if r.1 < 2 {
        OneDigit(q % 1000000);
        TenthsAreHundredths(q, r.0);
        TwoDecimalsAreShort(q);
      } else {
        DigitsAreShort(q, r.0, r.1);
      }
    }
  }

  /** A credit note keeps two decimals: its quantity is exact only in whole hundredths. */
  lemma NoteQuantityExactly(q: nat)
    ensures ReadQuantity(PrintNoteQuantity(q)) == Some(q) <==> q % 10000 == 0
    ensures Decimals(PrintNoteQuantity(q)) == 2
    ensures ReadQuantity(PrintNoteQuantity(q)) == Some(10000 * HalfEven(q, 10000))
    ensures IsHalfEven(HalfEven(q, 10000), q, 10000)
  {
    TwoReadsBack(q);
    HalfEvenIs(q, 10000);
  }

  /** An eighth of a kilogram: the invoice says 0.125, its credit note 0.12. */
  lemma EighthIsCut()
    ensures ReadQuantity(PrintQuantity(125000)) == Some(125000)
    ensures ReadQuantity(PrintNoteQuantity(125000)) == Some(120000)
  {
    QuantityComesBack(125000);
    TwoReadsBack(125000);
  }
}
