/**
 Whole amounts printed with thousands groups and no decimals: the parser takes the first group mark for the decimal
 mark, so such a text parses back only when there is none.
 */
module WholeAmounts {
  import opened Outcomes
  import opened Currency
  import opened CurrencyPrinting
  import opened NumberReading

  function PrintWhole(n: nat, negative: bool, style: Style): string {
    Sign(negative) + Grouped(n, Grouping(style))
  }

  /** The number made of the leading two groups, or of the only one. */
  function Front(n: nat): nat {
    if n < 1000000 then n else Front(n / 1000)
  }

  /** What follows the leading two groups. */
  function Rest(n: nat, grouping: char): string {
    if n < 1000000 then [] else Rest(n / 1000, grouping) + [grouping] + ThreeDigits(n % 1000)
  }

  lemma {:induction false} FrontBounds(n: nat)
    ensures n >= 1000 ==> 1000 <= Front(n) < 1000000
    ensures Front(n) <= n
  {
    if n >= 1000000 {
      FrontBounds(n / 1000);
    }
  }

  lemma {:induction false} GroupedFront(n: nat, grouping: char)
    requires n >= 1000
    ensures 1000 <= Front(n) < 1000000
    ensures Grouped(n, grouping)
         == FewDigits(Front(n) / 1000) + ([grouping] + (ThreeDigits(Front(n) % 1000) + Rest(n, grouping)))
    ensures Rest(n, grouping) == [] || Rest(n, grouping)[0] == grouping
  {
    FrontBounds(n);
    if n >= 1000000 {
      GroupedFront(n / 1000, grouping);
    }
  }

  /** A whole amount shows no separator but its group marks, which are then taken for decimal marks. */
  lemma WholeSeparators(n: nat, negative: bool, style: Style)
    ensures var p := PrintWhole(n, negative, style);
            && Mark(style) !in p && Count(p, Mark(style)) == 0 && Ungroup(p) == p
            && DecimalMark(p) == if n < 1000 then '.' else Grouping(style)
  {
    var p := PrintWhole(n, negative, style);
    GroupedCharacters(n, Grouping(style));
    CountNone(p, Mark(style));
    if n >= 1000 {
      var j :| 0 <= j < |Grouped(n, Grouping(style))| && Grouped(n, Grouping(style))[j] == Grouping(style);
      assert p[|p| - |Grouped(n, Grouping(style))| + j] == Grouping(style);
    }
  }

  lemma FrontDigits(n: nat)
    requires n < 1000000
    ensures var whole, fraction := FewDigits(n / 1000), ThreeDigits(n % 1000);
            && whole != [] && AllDigits(whole) && AllDigits(fraction) && |fraction| == 3
            && DigitsValue(whole + fraction) == n
  {
    FewDigitsValue(n / 1000);
    ThreeMore(FewDigits(n / 1000), n % 1000);
    ThreeMore([], n % 1000);
    assert [] + ThreeDigits(n % 1000) == ThreeDigits(n % 1000);
  }

  lemma LargeReads(n: nat, negative: bool, style: Style)
    requires n >= 1000
    ensures ReadNumber(PrintWhole(n, negative, style), Grouping(style)) == Some(Decimal(Signed(negative, Front(n)), 3))
  {
    var g := Grouping(style);
    GroupedFront(n, g);
    FrontDigits(Front(n));
    ReadsDecimal(FewDigits(Front(n) / 1000), ThreeDigits(Front(n) % 1000), Rest(n, g), negative, g);
  }

  lemma SmallReads(n: nat, negative: bool, style: Style)
    requires n < 1000
    ensures ReadNumber(PrintWhole(n, negative, style), '.') == Some(Decimal(Signed(negative, n), 0))
  {
    FewDigitsValue(n);
    assert FewDigits(n) + [] == FewDigits(n);
    ReadsWhole(FewDigits(n), [], negative, '.');
  }

  /** What a whole amount is read as: the leading group, with the next one as its decimals. */
  lemma WholeAmountsRead(text: string, n: nat, negative: bool, style: Style)
    requires Decorated(text, PrintWhole(n, negative, style))
    ensures Amount(text) == Ok(Decimal(Signed(negative, Front(n)), if n < 1000 then 0 else 3))
  {
    CleanUndecorates(text, PrintWhole(n, negative, style));
    WholeSeparators(n, negative, style);
    if n < 1000 {
      SmallReads(n, negative, style);
    } else {
      LargeReads(n, negative, style);
    }
    assert text != [];
  }

  function Power10(k: nat): nat {
    if k == 0 then 1 else 10 * Power10(k - 1)
  }

  /** The decimal is exactly the whole number. */
  predicate Equals(d: Decimal, n: int) {
    d.mantissa == n * Power10(d.scale)
  }

  /** In either style, with any sign and decoration, a whole amount parses back exactly when it is below a thousand. */
  lemma WholeAmountsParseBackExactlyWhen(text: string, n: nat, negative: bool, style: Style)
    requires Decorated(text, PrintWhole(n, negative, style))
    ensures Amount(text).Ok? && (Equals(Amount(text).value, Signed(negative, n)) <==> n < 1000)
  {
    WholeAmountsRead(text, n, negative, style);
    FrontBounds(n);
    EqualsExactly(Signed(negative, Front(n)), Signed(negative, n));
  }

  lemma EqualsExactly(mantissa: int, n: int)
    ensures Equals(Decimal(mantissa, 0), n) <==> mantissa == n
    ensures Equals(Decimal(mantissa, 3), n) <==> mantissa == 1000 * n
  {
    assert Power10(3) == 10 * (10 * (10 * Power10(0)));
  }
}
