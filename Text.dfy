/** Decimal formatting and parsing of unsigned integers, and String.Split with a
    count, as the plotter and the plot reader use them on file names. */
module Text {
  import opened Bytes

  predicate IsDigit(c: char) { '0' <= c <= '9' }

  function DigitChar(d: nat): (c: char)
    requires d < 10
    ensures IsDigit(c) && DigitValue(c) == d
  {
    ['0', '1', '2', '3', '4', '5', '6', '7', '8', '9'][d]
  }

  function DigitValue(c: char): (d: nat)
    requires IsDigit(c)
    ensures d < 10
  {
    (c as int) - ('0' as int)
  }

  predicate AllDigits(s: string) { forall i :: 0 <= i < |s| ==> IsDigit(s[i]) }

  /** The value of a string of decimal digits, most significant first. */
  function DigitsValue(s: string): (v: nat)
    requires AllDigits(s)
  {
    if s == [] then 0 else DigitsValue(s[..|s| - 1]) * 10 + DigitValue(s[|s| - 1])
  }

  /** `n.ToString()` for an unsigned integer: its decimal digits, no sign, no
      leading zeros, no group separators. */
  function DecimalString(n: nat): (s: string)
    ensures s != [] && AllDigits(s)
    decreases n
  {
    if n < 10 then [DigitChar(n)] else DecimalString(n / 10) + [DigitChar(n % 10)]
  }

  /** ulong.TryParse / ulong.Parse on plain digit strings: a non-empty run of
      decimal digits whose value fits in 64 bits. */
  function ParseU64(s: string): (r: Option<u64>)
    ensures r.Some? <==> s != [] && AllDigits(s) && DigitsValue(s) < TWO_64
    ensures r.Some? ==> r.value == DigitsValue(s)
  {
    if s != [] && AllDigits(s) && DigitsValue(s) < TWO_64 then Some(DigitsValue(s)) else None
  }

  /** ulong.Parse on plain digit strings: null throws ArgumentNullException,
      a string that is not a run of digits throws FormatException and a run
      of digits too large for 64 bits throws OverflowException. It accepts
      exactly what ParseU64 accepts. */
  function ULongParse(s: Option<string>): (r: Result<u64>)
    ensures s.None? ==> r == Failure("ArgumentNullException")
    ensures s.Some? ==> (r.Success? <==> ParseU64(s.value).Some?)
    ensures s.Some? && r.Success? ==> r.value == ParseU64(s.value).value
    ensures s.Some? && s.value != [] && AllDigits(s.value) && r.Failure? ==> r.error == "OverflowException"
    ensures s.Some? && (s.value == [] || !AllDigits(s.value)) ==> r == Failure("FormatException")
  {
    if s.None? then Failure("ArgumentNullException")
    else if s.value == [] || !AllDigits(s.value) then Failure("FormatException")
    else if DigitsValue(s.value) >= TWO_64 then Failure("OverflowException")
    else Success(DigitsValue(s.value))
  }

  lemma {:induction false} DecimalStringValue(n: nat)
    ensures DigitsValue(DecimalString(n)) == n
    decreases n
  {
    if n >= 10 {
      var s := DecimalString(n);
      assert s[..|s| - 1] == DecimalString(n / 10);
      DecimalStringValue(n / 10);
    }
  }

  /** Formatting and then parsing a ulong gives it back. */
  lemma {:induction false} ParseDecimalString(n: u64)
    ensures ParseU64(DecimalString(n)) == Some(n)
  {
    DecimalStringValue(n);
  }

  predicate NoLeadingZero(s: string)
  {
    |s| == 1 || (s != [] && s[0] != '0')
  }

  lemma {:induction false} DigitCharValue(c: char)
    requires IsDigit(c)
    ensures DigitChar(DigitValue(c)) == c
  {
  }

  /** A run of digits that starts with a non-zero digit has a positive value. */
  lemma {:induction false} LeadingDigitPositive(s: string)
    requires s != [] && AllDigits(s) && s[0] != '0'
    ensures DigitsValue(s) >= 1
    decreases |s|
  {
    if |s| > 1 {
      LeadingDigitPositive(s[..|s| - 1]);
    }
  }

  /** A run of digits without leading zeros is the rendering of its value. */
  lemma {:induction false} DecimalStringOfDigits(s: string)
    requires AllDigits(s) && NoLeadingZero(s)
    ensures DecimalString(DigitsValue(s)) == s
    decreases |s|
  {
    var last := s[|s| - 1];
    DigitCharValue(last);
    if |s| > 1 {
      var p := s[..|s| - 1];
      LeadingDigitPositive(p);
      DecimalStringOfDigits(p);
      var n := DigitsValue(s);
      assert n / 10 == DigitsValue(p) && n % 10 == DigitValue(last);
      assert s == p + [last];
    }
  }

  /** Parsing is the inverse of formatting on strings without leading zeros:
      a string that parses to v, with no leading zero, is v's rendering. */
  lemma {:induction false} ParsedIsDecimalString(s: string, v: u64)
    requires ParseU64(s) == Some(v) && NoLeadingZero(s)
    ensures s == DecimalString(v)
  {
    DecimalStringOfDigits(s);
  }

  /** A decimal rendering never contains the file-name separator. */
  lemma {:induction false} DecimalStringHasNoUnderscore(n: nat)
    ensures '_' !in DecimalString(n)
  {
  }

  /** Index of the first occurrence of c in s, or |s| if there is none. */
  function IndexOf(s: string, c: char): (k: nat)
    ensures k <= |s|
    ensures k < |s| ==> s[k] == c
    ensures forall j :: 0 <= j < k ==> s[j] != c
  {
    if s == [] then 0 else if s[0] == c then 0 else 1 + IndexOf(s[1..], c)
  }

  /** String.Split(new char[] { sep }, count): at most `count` parts; the last
      part holds the rest of the string, separators included. */
  function SplitN(s: string, sep: char, count: nat): (parts: seq<string>)
    requires count >= 1
    ensures 1 <= |parts| <= count
    decreases count
  {
    var k := IndexOf(s, sep);
    if count == 1 || k == |s| then [s] else [s[..k]] + SplitN(s[k + 1..], sep, count - 1)
  }

  function CountChar(s: string, c: char): (n: nat)
    ensures n <= |s|
  {
    if s == [] then 0 else (if s[0] == c then 1 else 0) + CountChar(s[1..], c)
  }

  lemma {:induction false} CountCharSplitsAtIndexOf(s: string, c: char)
    requires IndexOf(s, c) < |s|
    ensures CountChar(s, c) == CountChar(s[IndexOf(s, c) + 1..], c) + 1
  {
    if s[0] != c {
      CountCharSplitsAtIndexOf(s[1..], c);
      assert s[1..][IndexOf(s[1..], c) + 1..] == s[IndexOf(s, c) + 1..];
    }
  }

  lemma {:induction false} CountCharZeroWithoutOccurrence(s: string, c: char)
    requires IndexOf(s, c) == |s|
    ensures CountChar(s, c) == 0
  {
    if s != [] {
      CountCharZeroWithoutOccurrence(s[1..], c);
    }
  }

  /** A string with at least count - 1 separators splits into exactly count parts. */
  lemma {:induction false} SplitNFull(s: string, sep: char, count: nat)
    requires count >= 1 && CountChar(s, sep) >= count - 1
    ensures |SplitN(s, sep, count)| == count
    decreases count
  {
    var k := IndexOf(s, sep);
    if count > 1 {
      if k == |s| {
        CountCharZeroWithoutOccurrence(s, sep);
      } else {
        CountCharSplitsAtIndexOf(s, sep);
        SplitNFull(s[k + 1..], sep, count - 1);
      }
    }
  }

  /** Joining parts that contain no separator and splitting again gives them back. */
  lemma {:induction false} SplitJoined(s: string, a: string, rest: string, sep: char, count: nat)
    requires count >= 2 && sep !in a && s == a + [sep] + rest
    ensures SplitN(s, sep, count) == [a] + SplitN(rest, sep, count - 1)
  {
    assert IndexOf(s, sep) == |a| by {
      IndexOfPrefix(a, rest, sep);
    }
    assert s[|a| + 1..] == rest;
    assert s[..|a|] == a;
  }

  lemma {:induction false} IndexOfPrefix(a: string, rest: string, sep: char)
    requires sep !in a
    ensures IndexOf(a + [sep] + rest, sep) == |a|
  {
    if a != [] {
      assert (a + [sep] + rest)[1..] == a[1..] + [sep] + rest;
      IndexOfPrefix(a[1..], rest, sep);
    }
  }
}
