/** Amounts printed in US or European style parse back to exactly themselves. */
module CurrencyPrinting {
  import opened Outcomes
  import opened Currency

  datatype Style = US | European

  function Mark(style: Style): char { if style == US then '.' else ',' }

  function Grouping(style: Style): char { if style == US then ',' else '.' }

  // ---- printing ----

  function Digit(d: nat): char
    requires d < 10
  {
    '0' + d as char
  }

  function ThreeDigits(n: nat): string
    requires n < 1000
  {
    [Digit(n / 100), Digit(n / 10 % 10), Digit(n % 10)]
  }

  function FewDigits(n: nat): string
    requires n < 1000
  {
    if n < 10 then [Digit(n)]
    else if n < 100 then [Digit(n / 10), Digit(n % 10)]
    else ThreeDigits(n)
  }

  function TwoDigits(n: nat): string
    requires n < 100
  {
    [Digit(n / 10), Digit(n % 10)]
  }

  /** A whole number with its digits in groups of three. */
  function Grouped(n: nat, grouping: char): string {
    if n < 1000 then FewDigits(n) else Grouped(n / 1000, grouping) + [grouping] + ThreeDigits(n % 1000)
  }

  /** An amount of cents with thousands groups and two decimals, optionally with a minus sign. */
  function Print(cents: nat, negative: bool, style: Style): string {
    (if negative then "-" else "") + Grouped(cents / 100, Grouping(style)) + [Mark(style)] + TwoDigits(cents % 100)
  }

  // ---- reading back ----

  /** The digits of a grouped number, without the groups. */
  function Ungrouped(n: nat): string {
    if n < 1000 then FewDigits(n) else Ungrouped(n / 1000) + ThreeDigits(n % 1000)
  }

  lemma Snoc(s: string, c: char)
    requires AllDigits(s) && IsDigit(c)
    ensures AllDigits(s + [c]) && DigitsValue(s + [c]) == 10 * DigitsValue(s) + DigitValue(c)
  {
    assert (s + [c])[..|s|] == s;
  }

  lemma ThreeMore(s: string, n: nat)
    requires AllDigits(s) && n < 1000
    ensures AllDigits(s + ThreeDigits(n)) && DigitsValue(s + ThreeDigits(n)) == 1000 * DigitsValue(s) + n
  {
    var a, b, c := Digit(n / 100), Digit(n / 10 % 10), Digit(n % 10);
    Snoc(s, a);
    Snoc(s + [a], b);
    Snoc(s + [a] + [b], c);
    assert s + ThreeDigits(n) == s + [a] + [b] + [c];
  }

  lemma FewDigitsValue(n: nat)
    requires n < 1000
    ensures FewDigits(n) != [] && AllDigits(FewDigits(n)) && DigitsValue(FewDigits(n)) == n
  {
    if n < 10 {
      Snoc([], Digit(n));
      assert [] + [Digit(n)] == FewDigits(n);
    } else if n < 100 {
      Snoc([], Digit(n / 10));
      Snoc([Digit(n / 10)], Digit(n % 10));
      assert [] + [Digit(n / 10)] == [Digit(n / 10)];
      assert [Digit(n / 10)] + [Digit(n % 10)] == FewDigits(n);
    } else {
      ThreeMore([], n);
      assert [] + ThreeDigits(n) == FewDigits(n);
    }
  }

  lemma {:induction false} UngroupedValue(n: nat)
    ensures Ungrouped(n) != [] && AllDigits(Ungrouped(n)) && DigitsValue(Ungrouped(n)) == n
  {
    if n < 1000 {
      FewDigitsValue(n);
    } else {
      UngroupedValue(n / 1000);
      ThreeMore(Ungrouped(n / 1000), n % 1000);
    }
  }

  lemma {:induction false} RemoveConcat(s: string, t: string, c: char)
    ensures Remove(s + t, c) == Remove(s, c) + Remove(t, c)
  {
    if s == [] {
      assert s + t == t;
    } else {
      assert (s + t)[1..] == s[1..] + t;
      RemoveConcat(s[1..], t, c);
    }
  }

  lemma {:induction false} RemoveNothing(s: string, c: char)
    requires c !in s
    ensures Remove(s, c) == s
  {
    if s != [] {
      RemoveNothing(s[1..], c);
    }
  }

  lemma DigitsHaveNo(s: string, c: char)
    requires AllDigits(s) && !IsDigit(c)
    ensures c !in s && Remove(s, c) == s
  {
    RemoveNothing(s, c);
  }

  lemma RemoveGroup(head: string, grouping: char, tail: string)
    requires AllDigits(tail) && !IsDigit(grouping)
    ensures Remove(head + [grouping] + tail, grouping) == Remove(head, grouping) + tail
  {
    RemoveConcat(head + [grouping], tail, grouping);
    DigitsHaveNo(tail, grouping);
    RemoveLast(head, grouping);
  }

  lemma RemoveLast(s: string, c: char)
    ensures Remove(s + [c], c) == Remove(s, c)
  {
    RemoveConcat(s, [c], c);
    assert [c][1..] == [];
    assert Remove([c], c) == [];
  }

  lemma {:induction false} RemoveGroups(n: nat, grouping: char)
    requires !IsDigit(grouping)
    ensures Remove(Grouped(n, grouping), grouping) == Ungrouped(n)
  {
    if n < 1000 {
      FewDigitsValue(n);
      DigitsHaveNo(FewDigits(n), grouping);
    } else {
      RemoveGroups(n / 1000, grouping);
      RemoveGroup(Grouped(n / 1000, grouping), grouping, ThreeDigits(n % 1000));
    }
  }

  lemma {:induction false} GroupedCharacters(n: nat, grouping: char)
    requires !IsDigit(grouping)
    ensures forall c <- Grouped(n, grouping) :: IsDigit(c) || c == grouping
    ensures n < 1000 <==> grouping !in Grouped(n, grouping)
  {
    if n < 1000 {
      FewDigitsValue(n);
    } else {
      GroupedCharacters(n / 1000, grouping);
      assert Grouped(n, grouping)[|Grouped(n / 1000, grouping)|] == grouping;
    }
  }

  lemma {:induction false} PrefixOfDigits(s: string, rest: string)
    requires AllDigits(s) && (rest == [] || !IsDigit(rest[0]))
    ensures DigitPrefix(s + rest) == |s|
  {
    if s == [] {
      assert s + rest == rest;
    } else {
      assert (s + rest)[1..] == s[1..] + rest;
      PrefixOfDigits(s[1..], rest);
    }
  }

  lemma TwoMore(s: string, n: nat)
    requires AllDigits(s) && n < 100
    ensures AllDigits(s + TwoDigits(n)) && DigitsValue(s + TwoDigits(n)) == 100 * DigitsValue(s) + n
  {
    Snoc(s, Digit(n / 10));
    Snoc(s + [Digit(n / 10)], Digit(n % 10));
    assert s + TwoDigits(n) == s + [Digit(n / 10)] + [Digit(n % 10)];
  }

  /** A plain number with two decimals reads as its digits. */
  lemma ReadPlain(whole: string, fraction: string, negative: bool, mark: char)
    requires whole != [] && AllDigits(whole) && AllDigits(fraction) && !IsDigit(mark)
    ensures AllDigits(whole + fraction)
    ensures ReadNumber((if negative then "-" else "") + whole + [mark] + fraction, mark)
         == Some(Decimal(Signed(negative, DigitsValue(whole + fraction)), |fraction|))
  {
    var t := whole + ([mark] + fraction);
    var s := (if negative then "-" else "") + whole + [mark] + fraction;
    assert s[0] == if negative then '-' else whole[0];
    assert Unsigned(s) == t;
    PrefixOfDigits(whole, [mark] + fraction);
    assert Whole(t) == whole && t[|whole|..] == [mark] + fraction;
    assert ([mark] + fraction)[1..] == fraction;
    PrefixOfDigits(fraction, []);
    assert fraction + [] == fraction;
    assert Fraction(t, mark) == fraction;
  }

  lemma {:induction false} CountConcat(s: string, t: string, c: char)
    ensures Count(s + t, c) == Count(s, c) + Count(t, c)
  {
    if s == [] {
      assert s + t == t;
    } else {
      assert (s + t)[1..] == s[1..] + t;
      CountConcat(s[1..], t, c);
    }
  }

  lemma {:induction false} CountNone(s: string, c: char)
    requires c !in s
    ensures Count(s, c) == 0
  {
    if s != [] {
      CountNone(s[1..], c);
    }
  }

  /** The printed amount's separators: one decimal mark, and the grouping character only before it. */
  lemma PrintedSeparators(cents: nat, negative: bool, style: Style)
    ensures var p := Print(cents, negative, style);
            && Count(p, Mark(style)) == 1 && Mark(style) in p
            && (Grouping(style) in p <==> cents / 100 >= 1000)
            && (Grouping(style) in p ==> FirstIndex(p, Grouping(style)) < FirstIndex(p, Mark(style)))
  {
    var p := Print(cents, negative, style);
    var g, m := Grouping(style), Mark(style);
    var sign := if negative then "-" else "";
    var head := sign + Grouped(cents / 100, g);
    var tail := TwoDigits(cents % 100);
    GroupedCharacters(cents / 100, g);
    assert m !in head && m !in tail && g !in tail;
    assert p == head + ([m] + tail) && p[|head|] == m;
    CountConcat(head, [m] + tail, m);
    CountConcat([m], tail, m);
    CountNone(head, m);
    CountNone(tail, m);
    assert Count([m], m) == 1;
    assert FirstIndex(p, m) == |head| by {
      assert forall j :: 0 <= j < |head| ==> p[j] == head[j];
    }
    if g in p {
      var j :| 0 <= j < |p| && p[j] == g;
      assert j < |head|;
      assert p[FirstIndex(p, g)] == g;
    }
    if g in Grouped(cents / 100, g) {
      var j :| 0 <= j < |Grouped(cents / 100, g)| && Grouped(cents / 100, g)[j] == g;
      assert p[|sign| + j] == g;
    }
  }

  /** Removing the groups of a printed amount leaves the plain number. */
  lemma UngroupPrinted(cents: nat, negative: bool, style: Style)
    ensures Remove(Print(cents, negative, style), Grouping(style))
         == (if negative then "-" else "") + Ungrouped(cents / 100) + [Mark(style)] + TwoDigits(cents % 100)
  {
    var g := Grouping(style);
    var sign := if negative then "-" else "";
    var tail := TwoDigits(cents % 100);
    RemoveGroups(cents / 100, g);
    RemoveConcat(sign + Grouped(cents / 100, g) + [Mark(style)], tail, g);
    RemoveConcat(sign + Grouped(cents / 100, g), [Mark(style)], g);
    RemoveConcat(sign, Grouped(cents / 100, g), g);
    RemoveNothing(sign, g);
    RemoveNothing([Mark(style)], g);
    RemoveNothing(tail, g);
  }

  /** The printed amount shows which mark it uses, and without its groups it is the plain number. */
  lemma UngroupsItself(cents: nat, negative: bool, style: Style)
    ensures var p := Print(cents, negative, style);
            && DecimalMark(p) == Mark(style)
            && Ungroup(p)
            == (if negative then "-" else "") + Ungrouped(cents / 100) + [Mark(style)] + TwoDigits(cents % 100)
  {
    var p := Print(cents, negative, style);
    PrintedSeparators(cents, negative, style);
    UngroupPrinted(cents, negative, style);
    if Grouping(style) !in p {
      RemoveNothing(p, Grouping(style));
    }
  }

  lemma DigitsOfCents(cents: nat)
    ensures var whole, fraction := Ungrouped(cents / 100), TwoDigits(cents % 100);
            && whole != [] && AllDigits(whole) && AllDigits(fraction)
            && AllDigits(whole + fraction) && DigitsValue(whole + fraction) == cents
  {
    var whole, fraction := Ungrouped(cents / 100), TwoDigits(cents % 100);
    UngroupedValue(cents / 100);
    TwoMore(whole, cents % 100);
    assert AllDigits(fraction) by {
      TwoMore([], cents % 100);
      assert [] + fraction == fraction;
    }
    assert 100 * (cents / 100) + cents % 100 == cents;
  }

  lemma PlainReadsBack(cents: nat, negative: bool, mark: char)
    requires !IsDigit(mark)
    ensures ReadNumber((if negative then "-" else "") + Ungrouped(cents / 100) + [mark] + TwoDigits(cents % 100), mark)
         == Some(Decimal(Signed(negative, cents), 2))
  {
    var whole, fraction := Ungrouped(cents / 100), TwoDigits(cents % 100);
    DigitsOfCents(cents);
    assert |fraction| == 2;
    ReadPlain(whole, fraction, negative, mark);
  }

  /** A character that means nothing in an amount. */
  predicate IsDecoration(c: char) {
    !('0' <= c <= '9') && c != ',' && c != '.' && c != '-'
  }

  /** `text` is `printed` with decoration put in anywhere: before it, after it and between its characters. */
  predicate Decorated(text: string, printed: string) {
    if text == [] then printed == []
    else if IsDecoration(text[0]) then Decorated(text[1..], printed)
    else printed != [] && text[0] == printed[0] && Decorated(text[1..], printed[1..])
  }

  /** Cleaning takes off decoration and nothing else. */
  lemma {:induction false} CleanUndecorates(text: string, printed: string)
    ensures Decorated(text, printed) <==> Clean(text) == printed
  {
    if text != [] {
      if IsDecoration(text[0]) {
        CleanUndecorates(text[1..], printed);
      } else {
        assert Clean(text) == [text[0]] + Clean(text[1..]);
        if printed != [] {
          CleanUndecorates(text[1..], printed[1..]);
          assert printed == [printed[0]] + printed[1..];
        }
      }
    }
  }

  /**
   Round trip: for every amount of cents, in either style, with or without a minus sign, every text that is the printed
   amount decorated with any characters other than digits, commas, periods and minus signs parses to that amount.
   */
  lemma {:induction false} PrintedAmountsParseBack(text: string, cents: nat, negative: bool, style: Style)
    requires Decorated(text, Print(cents, negative, style))
    ensures Amount(text) == Ok(Decimal(Signed(negative, cents), 2))
  {
    CleanUndecorates(text, Print(cents, negative, style));
    PrintedSeparators(cents, negative, style);
    UngroupsItself(cents, negative, style);
    PlainReadsBack(cents, negative, Mark(style));
    assert text != [];
  }

  lemma {:induction false} CleanKeeps(s: string)
    requires forall c <- s :: Kept(c)
    ensures Clean(s) == s
  {
    if s != [] {
      CleanKeeps(s[1..]);
    }
  }

  /** A printed amount is free of decoration itself; so the plainest form, one in front and one behind, is decorated. */
  lemma PrintedIsClean(cents: nat, negative: bool, style: Style)
    ensures Clean(Print(cents, negative, style)) == Print(cents, negative, style)
  {
    GroupedCharacters(cents / 100, Grouping(style));
    CleanKeeps(Print(cents, negative, style));
  }

  lemma DecoratedAround(before: string, after: string, cents: nat, negative: bool, style: Style)
    requires forall c <- before + after :: IsDecoration(c)
    ensures Decorated(before + Print(cents, negative, style) + after, Print(cents, negative, style))
  {
    var p := Print(cents, negative, style);
    PrintedIsClean(cents, negative, style);
    CleanConcat(before + p, after);
    CleanConcat(before, p);
    CleanNothing(before);
    CleanNothing(after);
    CleanUndecorates(before + p + after, p);
  }

  lemma {:induction false} CleanConcat(s: string, t: string)
    ensures Clean(s + t) == Clean(s) + Clean(t)
  {
    if s == [] {
      assert s + t == t;
    } else {
      assert (s + t)[0] == s[0] && (s + t)[1..] == s[1..] + t;
      CleanConcat(s[1..], t);
      var first := if Kept(s[0]) then [s[0]] else [];
      assert first + (Clean(s[1..]) + Clean(t)) == first + Clean(s[1..]) + Clean(t);
    }
  }

  lemma {:induction false} CleanNothing(s: string)
    requires forall c <- s :: IsDecoration(c)
    ensures Clean(s) == []
  {
    if s != [] {
      assert IsDecoration(s[0]);
      CleanNothing(s[1..]);
    }
  }
}
