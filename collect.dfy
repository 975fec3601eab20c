/**
 * Small utilities of simple_tools/a_collect.py: output file names, interval
 * membership with open ends, English ordinal suffixes, and right-justified
 * integers.
 */
module Collect {
  import opened Runtime
  import opened Text
  import Numbers

  // ---------------------------------------------------------------------
  // file_named
  // ---------------------------------------------------------------------

  /** file_named(file): ".out.txt" for 0, else ".out<file>.txt". */
  function FileNamed(file: int): (name: string)
    ensures file == 0 ==> name == ".out.txt"
    ensures file != 0 ==> |name| >= 9 && name[..4] == ".out" && name[|name| - 4..] == ".txt"
    ensures file != 0 ==> name[4..|name| - 4] == IntToString(file)
  {
    if file == 0 then ".out.txt" else ".out" + IntToString(file) + ".txt"
  }

  /** Different files get different names. */
  lemma FileNamedInjective(a: int, b: int)
    requires FileNamed(a) == FileNamed(b)
    ensures a == b
  {
    if a != 0 && b != 0 {
      IntToStringInjective(a, b);
    }
  }

  // ---------------------------------------------------------------------
  // is_within_bounds
  // ---------------------------------------------------------------------

  /**
   * is_within_bounds: each given bound is asserted in turn, and a failed
   * assertion is caught and answered with False. A bound of None is no
   * bound (minus or plus infinity).
   */
  function IsWithinBounds(candidate: int, minimum: Option<int>, maximum: Option<int>): (r: bool)
    ensures r <==> (minimum.None? || minimum.value <= candidate) && (maximum.None? || candidate <= maximum.value)
    ensures minimum.None? && maximum.None? ==> r
  {
    if minimum.Some? && !(candidate >= minimum.value) then false
    else if maximum.Some? && !(candidate <= maximum.value) then false
    else true
  }

  // ---------------------------------------------------------------------
  // get_pad_length and pad_value_int
  // ---------------------------------------------------------------------

  /** get_pad_length(v): the length of str(v). */
  function GetPadLength(v: int): (n: nat)
    ensures n >= 1
    ensures n == |IntToString(v)|
  {
    |IntToString(v)|
  }

  /** The length of str(v) is the count of v's decimal digits, plus one for the sign of a negative v. */
  lemma GetPadLengthCountsDigits(v: int)
    ensures var digits := GetPadLength(v) - (if v < 0 then 1 else 0);
            digits >= 1 && Numbers.Abs(v) < Pow10(digits) &&
            (v != 0 ==> Pow10(digits - 1) <= Numbers.Abs(v))
  {
    NatToStringLength(Numbers.Abs(v));
  }

  /** `s.rjust(width, c)`: s preceded by enough copies of c to reach width, if it is shorter. */
  function RJust(s: string, width: int, c: char): (r: string)
    ensures |r| == if width <= |s| then |s| else width
    ensures r[|r| - |s|..] == s
    ensures forall i :: 0 <= i < |r| - |s| ==> r[i] == c
  {
    if width <= |s| then s else seq(width - |s|, _ => c) + s
  }

  /**
   * pad_value_int(value, pad, pad_char): str(value) right-justified to pad
   * characters; a pad_char not exactly one character long makes rjust raise
   * TypeError.
   */
  function PadValueInt(value: int, pad: int, padChar: string): (r: Result<string>)
    ensures r.Ok? <==> |padChar| == 1
    ensures r.Raised? ==> r.error == TypeError
    ensures r.Ok? ==> |r.value| == if pad <= GetPadLength(value) then GetPadLength(value) else pad
    ensures r.Ok? ==> r.value[|r.value| - GetPadLength(value)..] == IntToString(value)
    ensures r.Ok? ==> forall i :: 0 <= i < |r.value| - GetPadLength(value) ==> r.value[i] == padChar[0]
  {
    if |padChar| != 1 then Raised(TypeError) else Ok(RJust(IntToString(value), pad, padChar[0]))
  }

  /** str(v) begins with a digit or a '-'. */
  lemma IntToStringStart(v: int)
    ensures IsDigit(IntToString(v)[0]) || IntToString(v)[0] == '-'
  {
  }

  /**
   * With a pad character that is neither a digit nor '-', the padded text
   * determines the value: the padding ends where str(value) begins.
   */
  lemma PadValueIntInjective(a: int, b: int, pad: int, padChar: string)
    requires |padChar| == 1 && !IsDigit(padChar[0]) && padChar[0] != '-'
    requires PadValueInt(a, pad, padChar) == PadValueInt(b, pad, padChar)
    ensures a == b
  {
    var r := PadValueInt(a, pad, padChar).value;
    var sa, sb := IntToString(a), IntToString(b);
    IntToStringStart(a);
    IntToStringStart(b);
    var pa, pb := |r| - |sa|, |r| - |sb|;
    assert r[pa] == sa[0] by { assert r[pa..][0] == sa[0]; }
    assert r[pb] == sb[0] by { assert r[pb..][0] == sb[0]; }
    assert pa == pb;
    assert sa == sb;
    IntToStringInjective(a, b);
  }

  // ---------------------------------------------------------------------
  // int_suffix
  // ---------------------------------------------------------------------

  /** `s.endswith(t)`. */
  predicate EndsWith(s: string, t: string) {
    |t| <= |s| && s[|s| - |t|..] == t
  }

  /** int_suffix(x): the English ordinal suffix, read off the end of str(x). */
  function IntSuffix(x: int): string {
    var tmp := IntToString(x);
    if EndsWith(tmp, "11") || EndsWith(tmp, "12") || EndsWith(tmp, "13") then "th"
    else if EndsWith(tmp, "1") then "st"
    else if EndsWith(tmp, "2") then "nd"
    else if EndsWith(tmp, "3") then "rd"
    else "th"
  }

  /** The English ordinal suffix of a number, by its value: 11th to 13th, else 1st, 2nd, 3rd, and th. */
  function OrdinalSuffix(n: nat): string {
    if 11 <= n % 100 <= 13 then "th"
    else if n % 10 == 1 then "st"
    else if n % 10 == 2 then "nd"
    else if n % 10 == 3 then "rd"
    else "th"
  }

  lemma EndsWithOne(s: string, c: char)
    requires |s| >= 1
    ensures EndsWith(s, [c]) <==> s[|s| - 1] == c
  {
    if s[|s| - 1] == c {
      assert s[|s| - 1..] == [c];
    }
  }

  lemma EndsWithTwo(s: string, c: char, d: char)
    requires |s| >= 1
    ensures EndsWith(s, [c, d]) <==> |s| >= 2 && s[|s| - 2] == c && s[|s| - 1] == d
  {
    if |s| >= 2 && s[|s| - 2] == c && s[|s| - 1] == d {
      assert s[|s| - 2..] == [c, d];
    }
    if EndsWith(s, [c, d]) {
      assert s[|s| - 2..][0] == c && s[|s| - 2..][1] == d;
    }
  }

  /** The last two decimal digits of n. */
  lemma LastTwoDigits(n: nat)
    ensures n % 100 == (n / 10 % 10) * 10 + n % 10
  {
    var a := n / 10;
    assert n == 10 * a + n % 10;
    assert a == 10 * (a / 10) + a % 10;
    assert n == 100 * (a / 10) + ((a % 10) * 10 + n % 10);
  }

  /** The last characters of str(x), by the digits of |x|. */
  lemma LastCharacters(x: int)
    ensures var s, n := IntToString(x), Numbers.Abs(x);
            s[|s| - 1] == DigitChar(n % 10) &&
            (n >= 10 ==> |s| >= 2 && s[|s| - 2] == DigitChar(n / 10 % 10)) &&
            (n < 10 ==> |s| < 2 || s[|s| - 2] == '-')
  {
    var n := Numbers.Abs(x);
    NatToStringLastDigits(n);
    var t := NatToString(n);
    if x < 0 {
      var s := "-" + t;
      assert s[|s| - 1] == t[|t| - 1];
      if n >= 10 {
        assert s[|s| - 2] == t[|t| - 2];
      } else {
        assert s[|s| - 2] == '-';
      }
    }
  }

  /** str(x) ends in 11, 12 or 13 exactly when |x| does, counting its last two digits. */
  lemma TeenEnding(x: int)
    ensures var s, n := IntToString(x), Numbers.Abs(x);
            (EndsWith(s, "11") || EndsWith(s, "12") || EndsWith(s, "13")) <==> 11 <= n % 100 <= 13
  {
    var s, n := IntToString(x), Numbers.Abs(x);
    LastCharacters(x);
    LastTwoDigits(n);
    EndsWithTwo(s, '1', '1');
    EndsWithTwo(s, '1', '2');
    EndsWithTwo(s, '1', '3');
    assert "11" == ['1', '1'] && "12" == ['1', '2'] && "13" == ['1', '3'];
  }

  /** str(x) ends in the digit d exactly when |x| does. */
  lemma UnitEnding(x: int, d: nat)
    requires d < 10
    ensures EndsWith(IntToString(x), [DigitChar(d)]) <==> Numbers.Abs(x) % 10 == d
  {
    LastCharacters(x);
    EndsWithOne(IntToString(x), DigitChar(d));
  }

  /** int_suffix agrees with the suffix rule by value, for negative numbers too (by their magnitude). */
  lemma IntSuffixByValue(x: int)
    ensures IntSuffix(x) == OrdinalSuffix(Numbers.Abs(x))
  {
    TeenEnding(x);
    UnitEnding(x, 1);
    UnitEnding(x, 2);
    UnitEnding(x, 3);
    assert "1" == [DigitChar(1)] && "2" == [DigitChar(2)] && "3" == [DigitChar(3)];
  }
}
