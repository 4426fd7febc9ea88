/**
 Reading an amount of money out of free text: guessing which of comma and period is the decimal mark, and reading the
 longest number at the front of what is left.
 */
module Currency {
  import opened Outcomes

  datatype CurrencyError = Empty | MultipleSeparators | NotANumber

  /** The exact number mantissa / 10^scale. */
  datatype Decimal = Decimal(mantissa: int, scale: nat)

  // ---- characters ----

  predicate IsDigit(c: char) { '0' <= c <= '9' }

  /** The characters that survive cleaning; white space is not among them, so trimming changes nothing further. */
  predicate Kept(c: char) { IsDigit(c) || c == '.' || c == ',' || c == '-' }

  function Clean(s: string): string {
    if s == [] then [] else (if Kept(s[0]) then [s[0]] else []) + Clean(s[1..])
  }

  function Count(s: string, c: char): nat {
    if s == [] then 0 else (if s[0] == c then 1 else 0) + Count(s[1..], c)
  }

  function Remove(s: string, c: char): string {
    if s == [] then [] else (if s[0] == c then [] else [s[0]]) + Remove(s[1..], c)
  }

  function Replace(s: string, c: char, d: char): string {
    seq(|s|, i requires 0 <= i < |s| => if s[i] == c then d else s[i])
  }

  /** The position of the first `c`, or the length when there is none. */
  function FirstIndex(s: string, c: char): (r: nat)
    ensures r <= |s|
    ensures forall j :: 0 <= j < r ==> s[j] != c
    ensures r < |s| ==> s[r] == c
  {
    if s == [] || s[0] == c then 0 else 1 + FirstIndex(s[1..], c)
  }

  // ---- numbers ----

  function DigitPrefix(s: string): (n: nat)
    ensures n <= |s|
    ensures forall i :: 0 <= i < n ==> IsDigit(s[i])
    ensures n < |s| ==> !IsDigit(s[n])
  {
    if s == [] || !IsDigit(s[0]) then 0 else 1 + DigitPrefix(s[1..])
  }

  predicate AllDigits(s: string) {
    forall i :: 0 <= i < |s| ==> IsDigit(s[i])
  }

  function DigitValue(c: char): nat
    requires IsDigit(c)
  {
    (c - '0') as nat
  }

  function DigitsValue(s: string): nat
    requires AllDigits(s)
  {
    if s == [] then 0 else 10 * DigitsValue(s[..|s| - 1]) + DigitValue(s[|s| - 1])
  }

  function Signed(negative: bool, n: int): int {
    if negative then -n else n
  }

  /** The digits at the front of `t`, and those after the decimal mark if it follows them. */
  function Whole(t: string): string {
    t[..DigitPrefix(t)]
  }

  function Fraction(t: string, mark: char): string {
    var rest := t[DigitPrefix(t)..];
    if rest != [] && rest[0] == mark then Whole(rest[1..]) else []
  }

  function Negative(s: string): bool {
    s != [] && s[0] == '-'
  }

  function Unsigned(s: string): string {
    if Negative(s) then s[1..] else s
  }

  /** The longest number at the front of `s`, with the given decimal mark: `parseFloat` when the mark is a period. */
  function ReadNumber(s: string, mark: char): Option<Decimal> {
    var t := Unsigned(s);
    var digits := Whole(t) + Fraction(t, mark);
    if digits == [] then None
    else Some(Decimal(Signed(Negative(s), DigitsValue(digits)), |Fraction(t, mark)|))
  }

  // ---- what the text means ----

  /** With both separators present the one that comes first groups digits and the other marks the decimals. */
  function DecimalMark(c: string): char {
    if ',' in c && (('.' in c) ==> FirstIndex(c, '.') <= FirstIndex(c, ',')) then ',' else '.'
  }

  function OtherSeparator(c: char): char {
    if c == ',' then '.' else ','
  }

  function Ungroup(c: string): string {
    if ',' in c && '.' in c then Remove(c, OtherSeparator(DecimalMark(c))) else c
  }

  /** The amount a text stands for. */
  function Amount(currency: string): Result<Decimal, CurrencyError> {
    var c := Clean(currency);
    if currency == [] then Err(Empty)
    else if Count(c, ',') > 1 && Count(c, '.') > 1 then Err(MultipleSeparators)
    else
      match ReadNumber(Ungroup(c), DecimalMark(c))
      case None => Err(NotANumber)
      case Some(d) => Ok(d)
  }

  // ---- the parser in its own form ----

  lemma {:induction false} NoneLeft(s: string, c: char)
    ensures c !in Remove(s, c)
    ensures forall d :: d != c ==> (d in Remove(s, c) <==> d in s)
  {
    if s != [] {
      NoneLeft(s[1..], c);
    }
  }

  lemma {:induction false} SamePrefix(s: string, t: string)
    requires |s| == |t| && forall i :: 0 <= i < |s| ==> IsDigit(s[i]) == IsDigit(t[i])
    ensures DigitPrefix(s) == DigitPrefix(t)
  {
    if s != [] {
      SamePrefix(s[1..], t[1..]);
    }
  }

  /** `t` is `s` with one mark written for the other. */
  predicate Remarked(s: string, mark: char, t: string, mark': char) {
    |s| == |t| && forall i :: 0 <= i < |s| ==>
      if s[i] == mark then t[i] == mark' else t[i] != mark' && (Plain(s[i]) || Plain(t[i]) ==> t[i] == s[i])
  }

  predicate Plain(c: char) { IsDigit(c) || c == '-' }

  lemma SameDigits(s: string, mark: char, t: string, mark': char)
    requires !Plain(mark) && !Plain(mark') && Remarked(s, mark, t, mark')
    ensures Whole(s) == Whole(t)
    ensures Remarked(s[|Whole(s)|..], mark, t[|Whole(t)|..], mark')
  {
    SamePrefix(s, t);
  }

  lemma SameFraction(s: string, mark: char, t: string, mark': char)
    requires !Plain(mark) && !Plain(mark') && Remarked(s, mark, t, mark')
    ensures Fraction(s, mark) == Fraction(t, mark')
  {
    SameDigits(s, mark, t, mark');
    var s1, t1 := s[|Whole(s)|..], t[|Whole(t)|..];
    if s1 != [] && s1[0] == mark {
      assert Remarked(s1[1..], mark, t1[1..], mark');
      SameDigits(s1[1..], mark, t1[1..], mark');
    }
  }

  /** A number reads the same whatever character marks its decimals. */
  lemma SameNumber(s: string, mark: char, t: string, mark': char)
    requires !Plain(mark) && !Plain(mark') && Remarked(s, mark, t, mark')
    ensures ReadNumber(s, mark) == ReadNumber(t, mark')
  {
    assert Negative(s) == Negative(t);
    assert Remarked(Unsigned(s), mark, Unsigned(t), mark');
    SameDigits(Unsigned(s), mark, Unsigned(t), mark');
    SameFraction(Unsigned(s), mark, Unsigned(t), mark');
  }

  /** `parseCurrencyToFloat`: the cleaned string is rewritten branch by branch until a plain number can be read. */
  method ParseCurrencyToFloat(currency: string) returns (r: Result<Decimal, CurrencyError>)
    ensures r == Amount(currency)
  {
    if currency == "" {
      return Err(Empty);
    }
    var cleanedString := Clean(currency);
    ghost var c := cleanedString;
    var commaCount := Count(cleanedString, ',');
    var periodCount := Count(cleanedString, '.');
    if commaCount > 1 && periodCount > 1 {
      return Err(MultipleSeparators);
    }
    if ',' in cleanedString && '.' in cleanedString {
      if FirstIndex(cleanedString, ',') < FirstIndex(cleanedString, '.') {
        cleanedString := Remove(cleanedString, ',');
      } else {
        cleanedString := Replace(Remove(cleanedString, '.'), ',', '.');
        NoneLeft(c, '.');
        SameNumber(Remove(c, '.'), ',', cleanedString, '.');
      }
    } else if ',' in cleanedString {
      cleanedString := Replace(cleanedString, ',', '.');
      SameNumber(c, ',', cleanedString, '.');
    }
    var parsedValue := ReadNumber(cleanedString, '.');
    if parsedValue == None {
      return Err(NotANumber);
    }
    r := Ok(parsedValue.value);
  }

  // ---- exchanging the separators ----

  function SwapChar(c: char): char {
    if c == ',' then '.' else if c == '.' then ',' else c
  }

  function Swap(s: string): string {
    seq(|s|, i requires 0 <= i < |s| => SwapChar(s[i]))
  }

  lemma {:induction false} CleanSwap(s: string)
    ensures Clean(Swap(s)) == Swap(Clean(s))
  {
    if s != [] {
      assert Swap(s)[1..] == Swap(s[1..]);
      CleanSwap(s[1..]);
      assert Swap(Clean(s)) == (if Kept(s[0]) then [SwapChar(s[0])] else []) + Swap(Clean(s[1..]));
    }
  }

  lemma {:induction false} CountSwap(s: string, c: char)
    ensures Count(Swap(s), SwapChar(c)) == Count(s, c)
    ensures SwapChar(c) in Swap(s) <==> c in s
    ensures FirstIndex(Swap(s), SwapChar(c)) == FirstIndex(s, c)
  {
    if s != [] {
      assert Swap(s)[0] == SwapChar(s[0]);
      assert Swap(s)[1..] == Swap(s[1..]);
      CountSwap(s[1..], c);
    }
  }

  lemma {:induction false} RemoveSwap(s: string, c: char)
    ensures Remove(Swap(s), SwapChar(c)) == Swap(Remove(s, c))
  {
    if s != [] {
      assert Swap(s)[1..] == Swap(s[1..]);
      RemoveSwap(s[1..], c);
      assert Swap(Remove(s, c)) == (if s[0] == c then [] else [SwapChar(s[0])]) + Swap(Remove(s[1..], c));
    }
  }

  lemma SwapRemarks(s: string, mark: char)
    requires mark == ',' || mark == '.'
    ensures OtherSeparator(mark) !in s ==> ReadNumber(Swap(s), SwapChar(mark)) == ReadNumber(s, mark)
  {
    if OtherSeparator(mark) !in s {
      SameNumber(s, mark, Swap(s), SwapChar(mark));
    }
  }

  /** The mark and the grouping change places with the separators. */
  lemma SwapReads(c: string)
    ensures ReadNumber(Ungroup(Swap(c)), DecimalMark(Swap(c))) == ReadNumber(Ungroup(c), DecimalMark(c))
  {
    CountSwap(c, ',');
    CountSwap(c, '.');
    var mark := DecimalMark(c);
    if ',' in c && '.' in c {
      assert FirstIndex(c, ',') != FirstIndex(c, '.');
      assert DecimalMark(Swap(c)) == SwapChar(mark);
      RemoveSwap(c, OtherSeparator(mark));
      NoneLeft(c, OtherSeparator(mark));
      SwapRemarks(Remove(c, OtherSeparator(mark)), mark);
    } else if ',' in c || '.' in c {
      assert DecimalMark(Swap(c)) == SwapChar(mark);
      SwapRemarks(c, mark);
    } else {
      assert Swap(c) == c;
    }
  }

  /** For every text, exchanging commas and periods never changes the outcome: the same amount or the same error. */
  lemma ExchangingSeparators(s: string)
    ensures Amount(Swap(s)) == Amount(s)
  {
    CleanSwap(s);
    CountSwap(Clean(s), ',');
    CountSwap(Clean(s), '.');
    SwapReads(Clean(s));
  }
}
