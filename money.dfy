/**
 * Formal dollar strings of simple_tools/money.py: is_money reads a string
 * such as "-$1,234.05" into an amount, or into the first rule of the format
 * it breaks; to_money writes an amount in that format, and digits_money
 * predicts how long the result is. Amounts are exact integer numbers of
 * cents, where the Python code uses floats.
 *
 * The format, read left to right: a sign ('+' or '-'), a '$', the dollar
 * digits with a ',' after every third digit counted from the right, a '.',
 * and two digits of cents.
 */
module Money {
  import opened Runtime
  import opened Text
  import opened Numbers

  /** MoneyParsingErrors, in declaration order (numbered 0 to 9). */
  datatype MoneyParsingError =
    | NoError
    | TooShort
    | SignageMissing
    | DollarSignMissing
    | DecimalPointMissing
    | FirstDigitMalformed
    | SecondDigitMalformed
    | MisplacedComma
    | AbsentComma
    | UnrecognizedDigit

  /** What is_money returns: an amount in cents, or an error member. */
  datatype MoneyParse = Amount(cents: int) | Failure(error: MoneyParsingError)

  /** How far the loop over the dollar part gets: the digits it collected, or the error it returned. */
  datatype Scan = Collected(digits: string) | Rejected(error: MoneyParsingError)

  /** `character in CM_DIGITS`: a comma or a decimal digit. */
  predicate InCmDigits(c: char) {
    c == ',' || IsDigit(c)
  }

  // ---------------------------------------------------------------------
  // is_money
  // ---------------------------------------------------------------------

  /**
   * The loop of is_money over the dollar part, reversed into u: in a cycle
   * of four places, places 0 to 2 take a digit and place 3 a comma; each
   * digit is put in front of the digits collected so far.
   */
  function ScanDollars(u: string, place: nat, collect: string): (r: Scan)
    requires place < 4 && AllDigits(collect)
    ensures r.Collected? ==> AllDigits(r.digits)
    ensures r.Rejected? ==> r.error in {MisplacedComma, AbsentComma, UnrecognizedDigit}
  {
    if u == [] then Collected(collect)
    else if !InCmDigits(u[0]) then Rejected(UnrecognizedDigit)
    else if place == 3 && u[0] != ',' then Rejected(AbsentComma)
    else if place != 3 && u[0] == ',' then Rejected(MisplacedComma)
    else ScanDollars(u[1..], (place + 1) % 4, if place != 3 then [u[0]] + collect else collect)
  }

  /**
   * is_money(s), with the checks in the order the code makes them: length,
   * sign, dollar sign, decimal point, the two cents digits (last one
   * first), then the dollar part; the amount is negative iff the sign is '-'.
   */
  function ParseMoney(s: string): (r: MoneyParse)
    ensures r.Failure? ==> r.error != NoError
    ensures |s| < 6 ==> r == Failure(TooShort)
  {
    if |s| < 6 then Failure(TooShort)
    else if s[0] !in {'+', '-'} then Failure(SignageMissing)
    else if s[1] != '$' then Failure(DollarSignMissing)
    else if s[|s| - 3] != '.' then Failure(DecimalPointMissing)
    else if !IsDigit(s[|s| - 1]) then Failure(FirstDigitMalformed)
    else if !IsDigit(s[|s| - 2]) then Failure(SecondDigitMalformed)
    else
      match ScanDollars(Reverse(s[2..|s| - 3]), 0, [])
      case Rejected(e) => Failure(e)
      case Collected(dollars) =>
        var magnitude := DigitsValue(dollars) * 100 + DigitsValue(s[|s| - 2..]);
        Amount(if s[0] == '-' then -magnitude else magnitude)
  }

  /**
   * is_money(string): the string is reversed into a list, the sign and the
   * dollar sign are popped from its end, the cents and the decimal point
   * deleted from its front, and the rest scanned digit by digit.
   */
  method IsMoney(s: string) returns (r: MoneyParse)
    ensures r == ParseMoney(s)
  {
    var temporary := Reverse(s);
    if |temporary| < 6 {
      return Failure(TooShort);
    }
    ReverseIndex(s, |s| - 1);
    ReverseIndex(s, |s| - 2);
    ReverseIndex(s, 0);
    ReverseIndex(s, 1);
    ReverseIndex(s, 2);
    if temporary[|temporary| - 1] !in {'+', '-'} {
      return Failure(SignageMissing);
    }
    var negative := true;
    var popped := temporary[|temporary| - 1];
    temporary := temporary[..|temporary| - 1];
    if popped == '+' {
      negative := false;
    }
    popped := temporary[|temporary| - 1];
    temporary := temporary[..|temporary| - 1];
    if popped != '$' {
      return Failure(DollarSignMissing);
    }
    if temporary[2] != '.' {
      return Failure(DecimalPointMissing);
    }
    if !IsDigit(temporary[0]) {
      return Failure(FirstDigitMalformed);
    }
    if !IsDigit(temporary[1]) {
      return Failure(SecondDigitMalformed);
    }
    var cents := [temporary[1], temporary[0]];
    assert cents == s[|s| - 2..];
    ReverseSlice(s, 2, |s| - 3);
    temporary := temporary[3..];
    assert temporary == Reverse(s[2..|s| - 3]);
    if temporary[0] == ',' {
      return Failure(MisplacedComma);
    }
    var scanned := ScanDollarPart(temporary);
    if scanned.Rejected? {
      return Failure(scanned.error);
    }
    DigitsValueConcat(scanned.digits, cents);
    var balance: int := DigitsValue(scanned.digits + cents);
    if negative {
      balance := -balance;
    }
    return Amount(balance);
  }

  /** The for loop of is_money over the reversed dollar part, which returns at the first character out of place. */
  method ScanDollarPart(temporary: string) returns (r: Scan)
    ensures r == ScanDollars(temporary, 0, "")
  {
    var place: nat := 0;
    var collectDigits := "";
    var k := 0;
    while k < |temporary|
      invariant 0 <= k <= |temporary| && place < 4 && AllDigits(collectDigits)
      invariant ScanDollars(temporary[k..], place, collectDigits) == ScanDollars(temporary, 0, "")
    {
      assert temporary[k..][1..] == temporary[k + 1..];
      var character := temporary[k];
      if InCmDigits(character) {
        if place == 3 && character != ',' {
          return Rejected(AbsentComma);
        } else if place != 3 {
          if character == ',' {
            return Rejected(MisplacedComma);
          }
          collectDigits := [character] + collectDigits;
        }
        place := (place + 1) % 4;
      } else {
        return Rejected(UnrecognizedDigit);
      }
      k := k + 1;
    }
    assert temporary[k..] == [];
    return Collected(collectDigits);
  }

  // ---------------------------------------------------------------------
  // The format as a grammar
  // ---------------------------------------------------------------------

  /**
   * The reversed dollar part u fits the comma pattern, its first place
   * being place p of the cycle: a comma exactly where the cycle is at
   * place 3, a digit everywhere else.
   */
  ghost predicate GroupedFrom(u: string, p: nat) {
    forall i :: 0 <= i < |u| ==> if (i + p) % 4 == 3 then u[i] == ',' else IsDigit(u[i])
  }

  /** The digits of u, in order, without its commas. */
  function DropCommas(u: string): string {
    if u == [] then []
    else if u[0] == ',' then DropCommas(u[1..])
    else [u[0]] + DropCommas(u[1..])
  }

  lemma CycleShift(i: nat, p: nat)
    requires p < 4
    ensures (i + (p + 1) % 4) % 4 == (i + 1 + p) % 4
  {
    if p == 3 {
      assert i + 4 == (i + 0) + 4;
    }
  }

  /** Shifting the comma pattern by its first character. */
  lemma GroupedFromTail(u: string, p: nat)
    requires u != [] && p < 4
    ensures GroupedFrom(u, p) <==>
              (if p == 3 then u[0] == ',' else IsDigit(u[0])) && GroupedFrom(u[1..], (p + 1) % 4)
  {
    if GroupedFrom(u, p) {
      assert p % 4 == p;
      forall i | 0 <= i < |u| - 1
        ensures if (i + (p + 1) % 4) % 4 == 3 then u[1..][i] == ',' else IsDigit(u[1..][i])
      {
        CycleShift(i, p);
        assert u[1..][i] == u[i + 1];
      }
    } else if (if p == 3 then u[0] == ',' else IsDigit(u[0])) {
      var i :| 0 <= i < |u| && !(if (i + p) % 4 == 3 then u[i] == ',' else IsDigit(u[i]));
      assert i != 0;
      CycleShift(i - 1, p);
      assert u[1..][i - 1] == u[i];
    }
  }

  /** The loop of is_money accepts the dollar part exactly when it fits the comma pattern. */
  lemma {:induction false} ScanAcceptsGrouped(u: string, p: nat, collect: string)
    requires p < 4 && AllDigits(collect)
    ensures ScanDollars(u, p, collect).Collected? <==> GroupedFrom(u, p)
  {
    if u != [] {
      GroupedFromTail(u, p);
      if InCmDigits(u[0]) && !(p == 3 && u[0] != ',') && !(p != 3 && u[0] == ',') {
        ScanAcceptsGrouped(u[1..], (p + 1) % 4, if p != 3 then [u[0]] + collect else collect);
      }
    }
  }

  /** On a dollar part that fits the pattern, the loop collects its digits in reading order in front of collect. */
  lemma {:induction false} ScanCollectsDigits(u: string, p: nat, collect: string)
    requires p < 4 && AllDigits(collect) && GroupedFrom(u, p)
    ensures ScanDollars(u, p, collect) == Collected(Reverse(DropCommas(u)) + collect)
  {
    if u == [] {
      assert Reverse(DropCommas(u)) + collect == collect;
    } else {
      GroupedFromTail(u, p);
      var collect' := if p != 3 then [u[0]] + collect else collect;
      ScanCollectsDigits(u[1..], (p + 1) % 4, collect');
      if u[0] != ',' {
        var d := [u[0]] + DropCommas(u[1..]);
        assert d[1..] == DropCommas(u[1..]);
        ReverseFirst(d);
        assert Reverse(DropCommas(u[1..])) + collect' == Reverse(d) + collect;
      }
    }
  }

  /**
   * The loop of is_money accepts the dollar part exactly when it fits the
   * comma pattern, and then has collected its digits in reading order.
   */
  lemma ScanDollarsGrammar(u: string, p: nat, collect: string)
    requires p < 4 && AllDigits(collect)
    ensures ScanDollars(u, p, collect).Collected? <==> GroupedFrom(u, p)
    ensures GroupedFrom(u, p) ==> ScanDollars(u, p, collect).digits == Reverse(DropCommas(u)) + collect
  {
    ScanAcceptsGrouped(u, p, collect);
    if GroupedFrom(u, p) {
      ScanCollectsDigits(u, p, collect);
    }
  }

  /** The format is_money accepts, stated without its loop. */
  ghost predicate MoneyFormat(s: string) {
    && |s| >= 6
    && s[0] in {'+', '-'}
    && s[1] == '$'
    && GroupedFrom(Reverse(s[2..|s| - 3]), 0)
    && s[|s| - 3] == '.'
    && IsDigit(s[|s| - 2]) && IsDigit(s[|s| - 1])
  }

  /**
   * is_money gives an amount exactly for the strings in the format, and the
   * amount is the dollar digits (commas dropped) followed by the cents
   * digits, negated iff the sign is '-'.
   */
  lemma ParseMoneyGrammar(s: string)
    ensures ParseMoney(s).Amount? <==> MoneyFormat(s)
    ensures MoneyFormat(s) ==>
              var dollars := DropCommas(s[2..|s| - 3]);
              AllDigits(dollars) &&
              var magnitude := DigitsValue(dollars) * 100 + DigitsValue(s[|s| - 2..]);
              ParseMoney(s).cents == if s[0] == '-' then -magnitude else magnitude
  {
    if |s| >= 6 {
      var d := s[2..|s| - 3];
      ScanDollarsGrammar(Reverse(d), 0, []);
      if GroupedFrom(Reverse(d), 0) {
        DropCommasReverse(d);
        assert Reverse(DropCommas(Reverse(d))) + [] == DropCommas(d);
      }
    }
  }

  /** Dropping the commas commutes with reversing. */
  lemma {:induction false} DropCommasReverse(d: string)
    ensures Reverse(DropCommas(Reverse(d))) == DropCommas(d)
  {
    if d != [] {
      DropCommasReverse(d[1..]);
      assert Reverse(d) == Reverse(d[1..]) + [d[0]];
      DropCommasConcat(Reverse(d[1..]), [d[0]]);
      assert DropCommas([d[0]]) == if d[0] == ',' then [] else [d[0]] by {
        assert [d[0]][1..] == [];
      }
      ReverseConcat(DropCommas(Reverse(d[1..])), DropCommas([d[0]]));
      ReverseReverse(DropCommas(d[1..]));
      if d[0] != ',' {
        assert Reverse([d[0]]) == [d[0]];
      }
    }
  }

  lemma {:induction false} DropCommasConcat(a: string, b: string)
    ensures DropCommas(a + b) == DropCommas(a) + DropCommas(b)
  {
    if a != [] {
      assert (a + b)[1..] == a[1..] + b;
      DropCommasConcat(a[1..], b);
    } else {
      assert a + b == b;
    }
  }

  // ---------------------------------------------------------------------
  // to_money and digits_money
  // ---------------------------------------------------------------------

  /** The reversed dollar digits r with a comma after every third of them, as to_money's loop leaves them. */
  function InsertCommas(r: string): string {
    if |r| <= 3 then r else r[..3] + [','] + InsertCommas(r[3..])
  }

  /** One comma for every full group of three after the first digit. */
  lemma {:induction false} InsertCommasLength(r: string)
    requires |r| >= 1
    ensures |InsertCommas(r)| == |r| + (|r| - 1) / 3
  {
    if |r| > 3 {
      InsertCommasLength(r[3..]);
    }
  }

  /** Another group of up to three digits after a whole number of groups adds one comma and the group. */
  lemma {:induction false} InsertCommasAppend(x: string, y: string)
    requires |x| >= 3 && |x| % 3 == 0 && 1 <= |y| <= 3
    ensures InsertCommas(x + y) == InsertCommas(x) + [','] + y
  {
    assert (x + y)[..3] == x[..3] && (x + y)[3..] == x[3..] + y;
    if |x| > 3 {
      InsertCommasAppend(x[3..], y);
    }
  }

  /** The grouped digits fit the comma pattern and are, without the commas, the digits again. */
  lemma {:induction false} InsertCommasGrammar(r: string)
    requires AllDigits(r)
    ensures GroupedFrom(InsertCommas(r), 0)
    ensures DropCommas(InsertCommas(r)) == r
  {
    if |r| <= 3 {
      DigitsDropNoCommas(r);
    } else {
      var rest := InsertCommas(r[3..]);
      InsertCommasGrammar(r[3..]);
      var g := r[..3] + [','] + rest;
      forall i | 0 <= i < |g|
        ensures if (i + 0) % 4 == 3 then g[i] == ',' else IsDigit(g[i])
      {
        if i >= 4 {
          assert g[i] == rest[i - 4];
          assert (i - 4 + 0) % 4 == (i + 0) % 4;
        }
      }
      assert InsertCommas(r) == g == r[..3] + ([','] + rest);
      DropCommasConcat(r[..3], [','] + rest);
      assert DropCommas([','] + rest) == DropCommas(rest) by {
        assert ([','] + rest)[1..] == rest;
      }
      DigitsDropNoCommas(r[..3]);
      assert DropCommas(g) == r[..3] + r[3..] == r;
    }
  }

  lemma {:induction false} DigitsDropNoCommas(r: string)
    requires AllDigits(r)
    ensures DropCommas(r) == r
  {
    if r != [] {
      DigitsDropNoCommas(r[1..]);
      assert [r[0]] + r[1..] == r;
    }
  }

  /** Two digits of cents, 0 <= c < 100. */
  function TwoDigits(c: nat): (t: string)
    requires c < 100
    ensures |t| == 2 && AllDigits(t) && DigitsValue(t) == c
  {
    var t := [DigitChar(c / 10), DigitChar(c % 10)];
    TwoDigitValue(t);
    t
  }

  /** The formal string to_money gives for an amount of cents. */
  function FormatMoney(cents: int): string {
    var magnitude := Abs(cents);
    (if cents < 0 then "-" else "+") + "$"
      + Reverse(InsertCommas(Reverse(NatToString(magnitude / 100)))) + "." + TwoDigits(magnitude % 100)
  }

  /**
   * The part after the '.' of str(round(abs(value), 2)) for an amount with
   * c cents over the whole dollars: the shortest decimal text, so a single
   * digit when the last digit of cents is 0.
   */
  function FractionText(c: nat): (t: string)
    requires c < 100
  {
    if c % 10 == 0 then [DigitChar(c / 10)] else [DigitChar(c / 10), DigitChar(c % 10)]
  }

  /** `s.ljust(width, fill)`. */
  function LJust(s: string, width: nat, fill: char): (t: string)
    ensures |t| == if |s| >= width then |s| else width
    ensures t[..|s|] == s && forall i :: |s| <= i < |t| ==> t[i] == fill
    decreases width - |s|
  {
    if |s| >= width then s else LJust(s + [fill], width, fill)
  }

  /**
   * to_money(value): split the text of the amount at the '.', insert a
   * comma into the reversed dollar digits before every third original
   * position (each insertion shifting the later ones by one), and pad the
   * cents to two digits.
   */
  method ToMoney(value: int) returns (r: string)
    ensures r == FormatMoney(value)
  {
    var negative := value < 0;
    var magnitude := Abs(value);
    var whole := NatToString(magnitude / 100);
    var fraction := FractionText(magnitude % 100);
    var counter := 0;
    var temporaryDollars := Reverse(whole);
    ghost var original := temporaryDollars;
    var n := |temporaryDollars|;
    var index := 3;
    while index < n
      invariant index == 3 * (counter + 1)
      invariant temporaryDollars == InsertCommas(original[..Min(index, n)]) + original[Min(index, n)..]
    {
      InsertionStep(original, index, counter, temporaryDollars);
      temporaryDollars := temporaryDollars[..index + counter] + [','] + temporaryDollars[index + counter..];
      counter := counter + 1;
      index := index + 3;
    }
    assert Min(index, n) == n && original[..n] == original && original[n..] == [];
    assert temporaryDollars == InsertCommas(original);
    var cents := LJust(fraction, 2, '0');
    assert cents == TwoDigits(magnitude % 100);
    r := (if negative then "-" else "+") + "$" + Reverse(temporaryDollars) + "." + cents;
  }

  function Min(a: int, b: int): int {
    if a < b then a else b
  }

  /** One pass of to_money's loop: the comma goes just before the next group of the original digits. */
  lemma InsertionStep(original: string, index: nat, counter: nat, current: string)
    requires index == 3 * (counter + 1) && index < |original|
    requires current == InsertCommas(original[..index]) + original[index..]
    ensures index + counter <= |current|
    ensures current[..index + counter] + [','] + current[index + counter..]
            == InsertCommas(original[..Min(index + 3, |original|)]) + original[Min(index + 3, |original|)..]
  {
    var x := original[..index];
    var m := Min(index + 3, |original|);
    InsertCommasLength(x);
    assert |InsertCommas(x)| == index + counter;
    assert current[..index + counter] == InsertCommas(x);
    assert current[index + counter..] == original[index..];
    var y := original[index..m];
    assert original[..m] == x + y;
    assert original[index..] == y + original[m..];
    InsertCommasAppend(x, y);
  }

  /** digits_money(value): 5 characters besides the dollar digits, and a comma per full group of three after the first. */
  function DigitsMoney(value: int): int {
    var t := |NatToString(Abs(value) / 100)|;
    5 + t + (t - 1) / 3
  }

  /** digits_money predicts the length of what to_money writes. */
  lemma DigitsMoneyIsLength(value: int)
    ensures DigitsMoney(value) == |FormatMoney(value)|
  {
    InsertCommasLength(Reverse(NatToString(Abs(value) / 100)));
  }

  /** The pieces of what to_money writes, where is_money looks for them. */
  lemma FormatMoneyParts(cents: int)
    ensures var s := FormatMoney(cents);
            var d := Reverse(InsertCommas(Reverse(NatToString(Abs(cents) / 100))));
            && |s| == 5 + |d| && |d| >= 1
            && s[0] == (if cents < 0 then '-' else '+') && s[1] == '$' && s[|s| - 3] == '.'
            && s[|s| - 2..] == TwoDigits(Abs(cents) % 100)
            && s[2..|s| - 3] == d
  {
    var whole := NatToString(Abs(cents) / 100);
    InsertCommasLength(Reverse(whole));
  }

  /** The loop of is_money reads back the digits from the grouping to_money makes of them. */
  lemma ScanGrouped(whole: string)
    requires AllDigits(whole)
    ensures ScanDollars(Reverse(Reverse(InsertCommas(Reverse(whole)))), 0, []) == Collected(whole)
  {
    var grouped := InsertCommas(Reverse(whole));
    ReverseReverse(grouped);
    ReverseSlice(whole, 0, |whole|);
    InsertCommasGrammar(Reverse(whole));
    ScanDollarsGrammar(grouped, 0, []);
    ReverseReverse(whole);
    assert Reverse(Reverse(whole)) + [] == whole;
  }

  /** Reading back what to_money writes gives the same amount of cents. */
  lemma MoneyRoundTrip(cents: int)
    ensures ParseMoney(FormatMoney(cents)) == Amount(cents)
  {
    FormatMoneyParts(cents);
    RoundTripOf(FormatMoney(cents), cents);
  }

  /** is_money reads back the amount from any string made of the pieces to_money writes. */
  lemma RoundTripOf(s: string, cents: int)
    requires var d := Reverse(InsertCommas(Reverse(NatToString(Abs(cents) / 100))));
             && |s| == 5 + |d| && |d| >= 1
             && s[0] == (if cents < 0 then '-' else '+') && s[1] == '$' && s[|s| - 3] == '.'
             && s[|s| - 2..] == TwoDigits(Abs(cents) % 100)
             && s[2..|s| - 3] == d
    ensures ParseMoney(s) == Amount(cents)
  {
    var magnitude := Abs(cents);
    var whole := NatToString(magnitude / 100);
    ScanGrouped(whole);
    DigitsValueOfNatToString(magnitude / 100);
    var t := s[|s| - 2..];
    assert IsDigit(s[|s| - 2]) && IsDigit(s[|s| - 1]) by {
      assert s[|s| - 2] == t[0] && s[|s| - 1] == t[1];
    }
    assert DigitsValue(whole) * 100 + DigitsValue(t) == magnitude;
    ParseMoneyOfParts(s, whole);
  }

  /** is_money on a string whose every check passes and whose dollar part scans to the given digits. */
  lemma ParseMoneyOfParts(s: string, whole: string)
    requires |s| >= 6 && s[0] in {'+', '-'} && s[1] == '$' && s[|s| - 3] == '.'
    requires IsDigit(s[|s| - 2]) && IsDigit(s[|s| - 1])
    requires ScanDollars(Reverse(s[2..|s| - 3]), 0, []) == Collected(whole)
    ensures AllDigits(whole) && AllDigits(s[|s| - 2..])
    ensures var magnitude := DigitsValue(whole) * 100 + DigitsValue(s[|s| - 2..]);
            ParseMoney(s) == Amount(if s[0] == '-' then -magnitude else magnitude)
  {
  }

  // ---------------------------------------------------------------------
  // is_error
  // ---------------------------------------------------------------------

  /** An argument of is_error: a number (int or float), a member of the error enum E, or any other object. */
  datatype Classified<E> = Number | Member(member: E) | OtherObject

  /** `isinstance(x, int) or isinstance(x, float)`: numbers, and the IntEnum members, which are ints. */
  predicate IsIntOrFloat<E>(x: Classified<E>) {
    x.Number? || x.Member?
  }

  /**
   * is_error(x) of MoneyParsingErrors and PercentageParsingErrors as
   * written: the number test comes first, and catches every member.
   */
  predicate IsErrorAsWritten<E(==)>(x: Classified<E>, noError: E) {
    if IsIntOrFloat(x) then false
    else if x.Member? then x.member != noError
    else false
  }

  /** As written, is_error is False even for the member TOO_SHORT that is_money("") returns. */
  lemma IsErrorAsWrittenMissesErrors()
    ensures ParseMoney("") == Failure(TooShort)
    ensures !IsErrorAsWritten(Member(ParseMoney("").error), NoError)
    ensures forall x: Classified<MoneyParsingError> :: !IsErrorAsWritten(x, NoError)
  {
  }

  /** is_error(x) as documented: members other than NO_ERROR are errors; numbers and other objects are not. */
  predicate IsError<E(==)>(x: Classified<E>, noError: E) {
    x.Member? && x.member != noError
  }

  /** What is_money returns, as an argument of is_error. */
  function Outcome(r: MoneyParse): Classified<MoneyParsingError> {
    match r
    case Amount(_) => Number
    case Failure(e) => Member(e)
  }

  /** The corrected is_error tells exactly the failures of is_money from its amounts. */
  lemma IsErrorClassifiesParse(s: string)
    ensures IsError(Outcome(ParseMoney(s)), NoError) <==> ParseMoney(s).Failure?
  {
  }

  // ---------------------------------------------------------------------
  // is_percentage
  // ---------------------------------------------------------------------

  /** PercentageParsingErrors, in declaration order. */
  datatype PercentageParsingError =
    | PercentNoError
    | PercentTooShort
    | PercentSignageMissing
    | PercentSignMissing
    | PercentDecimalPointMissing
    | MalformationInFloat

  /** What is_percentage returns: a percentage value, or an error member. */
  datatype PercentParse = Percentage(value: real) | PercentFailure(error: PercentageParsingError)

  /**
   * The checks of is_percentage(s) that come before the conversion of the
   * text between the sign and the '%'; None when they all pass.
   */
  function PercentChecks(s: string): (e: Option<PercentageParsingError>)
    ensures |s| < 5 ==> e == Some(PercentTooShort)
    ensures e.None? <==> |s| >= 5 && s[0] in {'-', '+'} && s[|s| - 1] == '%' && '.' in s
  {
    if |s| < 5 then Some(PercentTooShort)
    else if s[0] !in {'-', '+'} then Some(PercentSignageMissing)
    else if s[|s| - 1] != '%' then Some(PercentSignMissing)
    else if '.' !in s then Some(PercentDecimalPointMissing)
    else None
  }

  /**
   * is_percentage(s) as written. float(s[1:-1]) is given as parsed (None
   * when it raises ValueError); the handler catches IndexError, which the
   * slice never raises, so the ValueError escapes.
   */
  function IsPercentageAsWritten(s: string, parsed: Option<real>): (r: Result<PercentParse>)
    ensures r.Raised? <==> PercentChecks(s).None? && parsed.None?
    ensures r.Raised? ==> r.error == ValueError
  {
    match PercentChecks(s)
    case Some(e) => Ok(PercentFailure(e))
    case None =>
      match parsed
      case None => Raised(ValueError)
      case Some(v) => Ok(Percentage(if s[0] == '-' then -v else v))
  }

  /** As written, MALFORMATION_IN_FLOAT is never returned: "+x.y%" raises ValueError instead. */
  lemma MalformationNeverReported(s: string, parsed: Option<real>)
    ensures IsPercentageAsWritten(s, parsed) != Ok(PercentFailure(MalformationInFloat))
    ensures IsPercentageAsWritten("+x.y%", None) == Raised(ValueError)
  {
    assert "+x.y%"[2] == '.';
  }

  /** is_percentage(s) as intended: an unreadable number is MALFORMATION_IN_FLOAT. */
  function IsPercentage(s: string, parsed: Option<real>): (r: PercentParse)
    ensures r.PercentFailure? ==> r.error != PercentNoError
    ensures r == PercentFailure(MalformationInFloat) <==> PercentChecks(s).None? && parsed.None?
    ensures r.Percentage? <==> PercentChecks(s).None? && parsed.Some?
    ensures r.Percentage? ==> r.value == if s[0] == '-' then -parsed.value else parsed.value
  {
    match PercentChecks(s)
    case Some(e) => PercentFailure(e)
    case None =>
      match parsed
      case None => PercentFailure(MalformationInFloat)
      case Some(v) => Percentage(if s[0] == '-' then -v else v)
  }

  /** The corrected version agrees with the code wherever the code returns. */
  lemma IsPercentageAgrees(s: string, parsed: Option<real>)
    ensures IsPercentageAsWritten(s, parsed).Ok? ==> IsPercentageAsWritten(s, parsed).value == IsPercentage(s, parsed)
  {
  }
}
