/** What the parser takes for a number: a sign, digits, a decimal mark and more digits, up to anything else. */
module NumberReading {
  import opened Outcomes
  import opened Currency
  import opened CurrencyPrinting

  function Sign(negative: bool): string {
    if negative then "-" else ""
  }

  /** The digits `ReadNumber` takes from the front of an unsigned text. */
  function Digits(t: string, mark: char): string {
    Whole(t) + Fraction(t, mark)
  }

  lemma SignedReads(t: string, negative: bool, mark: char)
    requires t != [] && t[0] != '-' && Digits(t, mark) != []
    ensures ReadNumber(Sign(negative) + t, mark)
         == Some(Decimal(Signed(negative, DigitsValue(Digits(t, mark))), |Fraction(t, mark)|))
  {
    var s := Sign(negative) + t;
    assert s[0] == if negative then '-' else t[0];
    assert Unsigned(s) == t;
  }

  lemma DigitsOfFront(whole: string, fraction: string, rest: string, mark: char)
    requires AllDigits(whole) && AllDigits(fraction) && !IsDigit(mark)
    requires rest == [] || !IsDigit(rest[0])
    ensures var t := whole + ([mark] + (fraction + rest));
            Fraction(t, mark) == fraction && Digits(t, mark) == whole + fraction
  {
    var tail := [mark] + (fraction + rest);
    PrefixOfDigits(whole, tail);
    assert (whole + tail)[..|whole|] == whole && (whole + tail)[|whole|..] == tail;
    assert tail[1..] == fraction + rest;
    PrefixOfDigits(fraction, rest);
    assert (fraction + rest)[..|fraction|] == fraction;
  }

  /** Digits on either side of the decimal mark, or on both, are read up to whatever is no digit. */
  lemma ReadsDecimal(whole: string, fraction: string, rest: string, negative: bool, mark: char)
    requires AllDigits(whole) && AllDigits(fraction) && AllDigits(whole + fraction) && whole + fraction != []
    requires !IsDigit(mark) && mark != '-' && (rest == [] || !IsDigit(rest[0]))
    ensures ReadNumber(Sign(negative) + (whole + ([mark] + (fraction + rest))), mark)
         == Some(Decimal(Signed(negative, DigitsValue(whole + fraction)), |fraction|))
  {
    var t := whole + ([mark] + (fraction + rest));
    DigitsOfFront(whole, fraction, rest, mark);
    assert t[0] == if whole == [] then mark else whole[0];
    SignedReads(t, negative, mark);
  }

  /** Digits that no decimal mark follows are a whole number. */
  lemma ReadsWhole(whole: string, rest: string, negative: bool, mark: char)
    requires AllDigits(whole) && whole != [] && (rest == [] || (!IsDigit(rest[0]) && rest[0] != mark))
    ensures ReadNumber(Sign(negative) + (whole + rest), mark) == Some(Decimal(Signed(negative, DigitsValue(whole)), 0))
  {
    var t := whole + rest;
    PrefixOfDigits(whole, rest);
    assert t[..|whole|] == whole && t[|whole|..] == rest;
    assert Digits(t, mark) == whole;
    SignedReads(t, negative, mark);
  }

  /** Nothing is read exactly when no digit follows the sign, at once or after a decimal mark. */
  lemma ReadsNothingExactlyWhen(c: string, mark: char)
    ensures var t := if c != [] && c[0] == '-' then c[1..] else c;
            ReadNumber(c, mark) == None
            <==> (t == [] || !IsDigit(t[0])) && !(|t| >= 2 && t[0] == mark && IsDigit(t[1]))
  {
    var t := if c != [] && c[0] == '-' then c[1..] else c;
    assert Unsigned(c) == t;
    if t != [] && !IsDigit(t[0]) {
      assert DigitPrefix(t) == 0 && t[0..] == t;
    }
  }

  /** Which texts are refused, and how. */
  lemma RefusedTexts(text: string)
    ensures var c := Clean(text);
            && (Amount(text) == Err(Empty) <==> text == "")
            && (Amount(text) == Err(MultipleSeparators) <==> text != "" && Count(c, ',') > 1 && Count(c, '.') > 1)
            && (text != "" && (forall d <- text :: !('0' <= d <= '9')) && !(Count(c, ',') > 1 && Count(c, '.') > 1) ==>
                  Amount(text) == Err(NotANumber))
  {
    var c := Clean(text);
    if forall d <- text :: !('0' <= d <= '9') {
      CleanIsPart(text);
      UngroupIsPart(c);
      var u := Ungroup(c);
      assert forall i :: 0 <= i < |u| ==> u[i] in u;
      ReadsNothingExactlyWhen(u, DecimalMark(c));
    }
  }

  lemma {:induction false} CleanIsPart(s: string)
    ensures forall c <- Clean(s) :: c in s
  {
    if s != [] {
      CleanIsPart(s[1..]);
    }
  }

  lemma UngroupIsPart(s: string)
    ensures forall c <- Ungroup(s) :: c in s
  {
    RemoveIsPart(s, OtherSeparator(DecimalMark(s)));
  }

  lemma {:induction false} RemoveIsPart(s: string, c: char)
    ensures forall d <- Remove(s, c) :: d in s
  {
    if s != [] {
      RemoveIsPart(s[1..], c);
    }
  }
}
