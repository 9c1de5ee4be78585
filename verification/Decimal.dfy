/** Decimal printing of 64-bit integers and of doubles. */
module Decimal {
  import opened Words

  const MAX_UINT64_DIGITS: int := 20
  const MAX_DOUBLE_DIGITS: int := 30

  function Pow10(n: nat): (p: nat)
    ensures p >= 1
  {
    if n == 0 then 1 else 10 * Pow10(n - 1)
  }

  function Digit(d: int): char
    requires 0 <= d < 10
  {
    (48 + d) as char
  }

  predicate IsDigit(c: char) { '0' <= c <= '9' }

  predicate AllDigits(s: string) { forall k :: 0 <= k < |s| ==> IsDigit(s[k]) }

  /** Decimal digits of n, most significant first; none for zero. */
  function Digits(n: nat): (s: string)
    ensures AllDigits(s)
    ensures n > 0 ==> |s| > 0 && s[0] != '0'
  {
    if n == 0 then "" else Digits(n / 10) + [Digit(n % 10)]
  }

  function Text(n: nat): string { if n == 0 then "0" else Digits(n) }

  /** The number a digit string denotes. */
  function Parse(s: string): nat
    requires AllDigits(s)
  {
    if s == "" then 0 else 10 * Parse(s[..|s| - 1]) + (s[|s| - 1] as int - 48)
  }

  lemma {:induction false} DigitsParse(n: nat)
    ensures Parse(Digits(n)) == n
  {
    if n > 0 {
      DigitsParse(n / 10);
      assert Digits(n)[..|Digits(n)| - 1] == Digits(n / 10);
    }
  }

  lemma {:induction false} DigitsLength(n: nat, k: nat)
    ensures n < Pow10(k) <==> |Digits(n)| <= k
  {
    if k > 0 && n > 0 {
      DigitsLength(n / 10, k - 1);
    }
  }

  lemma Uint64Digits(value: uint64)
    ensures |Digits(value)| <= MAX_UINT64_DIGITS
  {
    assert Pow10(5) == 100000;
    assert Pow10(10) == 100000 * Pow10(5);
    assert Pow10(15) == 100000 * Pow10(10);
    assert Pow10(20) == 100000 * Pow10(15);
    DigitsLength(value, 20);
  }

  /** Reading back what was printed gives the value; there is no leading zero
      and never more than twenty digits. */
  lemma TextRoundTrip(value: uint64)
    ensures AllDigits(Text(value)) && Parse(Text(value)) == value
    ensures 1 <= |Text(value)| <= MAX_UINT64_DIGITS
    ensures Text(value)[0] == '0' <==> value == 0
  {
    TextParse(value);
    Uint64Digits(value);
  }

  /** The printing wrapper's buffer has twenty bytes, so text and terminator fit
      exactly for values of at most nineteen digits. */
  lemma WrapperBufferFits(value: uint64)
    ensures |Text(value)| < MAX_UINT64_DIGITS <==> value < 10000000000000000000
  {
    assert Pow10(5) == 100000;
    assert Pow10(10) == 100000 * Pow10(5);
    assert Pow10(15) == 100000 * Pow10(10);
    assert Pow10(19) == 10000 * Pow10(15);
    DigitsLength(value, 19);
  }

  /** A C string s at the front of a buffer. */
  ghost predicate Holds(str: array<char>, s: string)
    reads str
  {
    |s| < str.Length && str[..|s|] == s && str[|s|] == '\0'
  }

  /** The second loop of uint64_to_str. */
  method Reverse(temp: array<char>, i0: nat, str: array<char>, ghost digits: string)
    requires temp != str && i0 == |digits| <= temp.Length && i0 < str.Length
    requires forall k :: 0 <= k < i0 ==> temp[k] == digits[i0 - 1 - k]
    modifies str
    ensures Holds(str, digits)
  {
    var i, j := i0, 0;
    while i > 0
      invariant 0 <= i && i + j == i0
      invariant forall k :: 0 <= k < j ==> str[k] == digits[k]
    {
      i := i - 1;
      str[j] := temp[i];
      j := j + 1;
    }
    str[j] := '\0';
  }

  lemma LastDigit(n: nat)
    ensures n == 0 ==> Digits(n) == ""
    ensures n > 0 ==> Digits(n) == Digits(n / 10) + [Digit(n % 10)]
  {
  }

  method Uint64ToStr(value0: uint64, str: array<char>)
    requires |Text(value0)| < str.Length
    modifies str
    ensures Holds(str, Text(value0))
  {
    hide Digits, Digit;
    LastDigit(0);
    var temp := new char[MAX_UINT64_DIGITS];
    var value, i := value0, 0;
    if value == 0 {
      str[0], str[1] := '0', '\0';
      return;
    }
    Uint64Digits(value0);
    while value != 0
      invariant 0 <= value < TWO64
      invariant 0 <= i && i + |Digits(value)| == |Digits(value0)|
      invariant forall k :: 0 <= k < i ==> temp[k] == Digits(value0)[|Digits(value0)| - 1 - k]
      invariant Digits(value) == Digits(value0)[..|Digits(value)|]
      decreases value
    {
      LastDigit(value);
      temp[i] := Digit(value % 10);
      i := i + 1;
      value := value / 10;
    }
    Reverse(temp, i, str, Digits(value0));
  }

  // ---- double_to_str ----

  function Zeros(n: nat): string { if n == 0 then "" else Zeros(n - 1) + "0" }

  function Clip(precision: int): int { if precision > 9 then 9 else precision }

  function FractionOf(magnitude: real): (f: real)
    ensures 0.0 <= f < 1.0
  {
    magnitude - magnitude.Floor as real
  }

  /** The fraction in units of the last place, before rounding. */
  function Scaled(magnitude: real, p: nat): real { FractionOf(magnitude) * (Pow10(p) as real) }

  lemma ScaledBelow(frac: real, scale: real)
    requires 0.0 <= frac < 1.0 && scale > 0.0
    ensures 0.0 <= frac * scale < scale
  {
    assert frac * scale < 1.0 * scale;
  }

  lemma ScaledRange(magnitude: real, p: nat)
    ensures 0.0 <= Scaled(magnitude, p) < Pow10(p) as real
  {
    ScaledBelow(FractionOf(magnitude), Pow10(p) as real);
  }

  /** The rounded fraction in units of the last printed place. */
  function Rounded(magnitude: real, p: nat): nat
    requires magnitude >= 0.0
  {
    ScaledRange(magnitude, p);
    (Scaled(magnitude, p) + 0.5).Floor
  }

  /** n with leading zeros up to p digits. */
  function Padded(n: nat, p: nat): string {
    (if |Text(n)| < p then Zeros(p - |Text(n)|) else "") + Text(n)
  }

  function FractionText(magnitude: real, p: nat): string
    requires magnitude >= 0.0
  {
    Padded(Rounded(magnitude, p), p)
  }

  function DoubleText(value: real, precision: int): string {
    var p := Clip(precision);
    (if value < 0.0 then "-" else "")
    + Text(AbsR(value).Floor)
    + (if p > 0 then "." + FractionText(AbsR(value), p) else "")
  }

  lemma {:induction false} ZerosAlone(n: nat)
    ensures |Zeros(n)| == n && AllDigits(Zeros(n)) && Parse(Zeros(n)) == 0
  {
    if n > 0 {
      ZerosAlone(n - 1);
      assert Zeros(n)[..|Zeros(n)| - 1] == Zeros(n - 1);
    }
  }

  lemma {:induction false} ZerosParse(n: nat, s: string)
    requires AllDigits(s)
    ensures |Zeros(n)| == n && AllDigits(Zeros(n) + s)
    ensures Parse(Zeros(n) + s) == Parse(s)
  {
    hide Zeros;
    ZerosAlone(n);
    if s == "" {
      assert Zeros(n) + "" == Zeros(n);
    } else {
      ZerosParse(n, s[..|s| - 1]);
      assert (Zeros(n) + s)[..|Zeros(n) + s| - 1] == Zeros(n) + s[..|s| - 1];
    }
  }

  lemma RoundHalfUp(x: real, n: nat)
    requires 0.0 <= x < n as real
    ensures var r := (x + 0.5).Floor;
            x - 0.5 <= r as real <= x + 0.5 && 0 <= r <= n && (r < n <==> x < n as real - 0.5)
  {
  }

  lemma RoundedBounds(magnitude: real, p: nat)
    requires magnitude >= 0.0
    ensures var n := Rounded(magnitude, p) as real;
            Scaled(magnitude, p) - 0.5 <= n <= Scaled(magnitude, p) + 0.5
    ensures Rounded(magnitude, p) <= Pow10(p)
    ensures Rounded(magnitude, p) < Pow10(p) <==> Scaled(magnitude, p) < Pow10(p) as real - 0.5
  {
    ScaledRange(magnitude, p);
    RoundHalfUp(Scaled(magnitude, p), Pow10(p));
  }

  lemma {:induction false} PlaceValues(n: nat, p: nat)
    requires p > 0 && n <= Pow10(p)
    ensures |Text(n)| <= p <==> n < Pow10(p)
    ensures n == Pow10(p) ==> |Text(n)| == p + 1
  {
    DigitsLength(n, p);
    DigitsLength(n, p + 1);
  }

  lemma PadParse(s: string, p: nat)
    requires AllDigits(s)
    ensures var t := (if |s| < p then Zeros(p - |s|) else "") + s;
            AllDigits(t) && Parse(t) == Parse(s) && |t| == MaxI(p, |s|)
  {
    if |s| < p {
      ZerosParse(p - |s|, s);
    } else {
      assert "" + s == s;
    }
  }

  lemma TextParse(n: nat)
    ensures AllDigits(Text(n)) && Parse(Text(n)) == n
  {
    DigitsParse(n);
    assert n == 0 ==> Text(n)[..0] == "";
  }

  lemma PaddedText(n: nat, p: nat)
    requires p > 0 && n <= Pow10(p)
    ensures AllDigits(Padded(n, p)) && Parse(Padded(n, p)) == n
    ensures |Padded(n, p)| == if n < Pow10(p) then p else p + 1
  {
    PlaceValues(n, p);
    TextParse(n);
    PadParse(Text(n), p);
  }

  /** The fraction shows exactly the requested digits precisely when rounding
      does not carry into the whole part. */
  lemma FractionWidth(magnitude: real, p: nat)
    requires magnitude >= 0.0 && p > 0
    ensures AllDigits(FractionText(magnitude, p))
    ensures Parse(FractionText(magnitude, p)) == Rounded(magnitude, p)
    ensures |FractionText(magnitude, p)| == if Rounded(magnitude, p) < Pow10(p) then p else p + 1
  {
    RoundedBounds(magnitude, p);
    PaddedText(Rounded(magnitude, p), p);
  }

  /** The number a printed whole part and fraction denote. */
  function ReadBack(whole: nat, fraction: string): real
    requires AllDigits(fraction)
  {
    whole as real + (Parse(fraction) as real) / (Pow10(|fraction|) as real)
  }

  /** Half a unit of the last place. */
  function HalfUnit(p: nat): real { 0.5 / (Pow10(p) as real) }

  /** How far a printed fraction is from the true one. */
  function FractionError(magnitude: real, fraction: string): real
    requires magnitude >= 0.0 && AllDigits(fraction)
  {
    AbsR(ReadBack(magnitude.Floor, fraction) - magnitude)
  }

  lemma QuotientBound(x: real, y: real, scale: real)
    requires scale > 0.0 && x * scale <= y
    ensures x <= y / scale
  {
    var q := y / scale;
    assert q * scale == y;
    if x > q {
      assert (x - q) * scale > 0.0;
    }
  }

  lemma ScaledError(n: real, frac: real, scale: real)
    requires scale > 0.0
    requires frac * scale - 0.5 <= n <= frac * scale + 0.5
    ensures AbsR(n / scale - frac) <= 0.5 / scale
  {
    var q := n / scale;
    assert q * scale == n;
    assert (q - frac) * scale <= 0.5 && (frac - q) * scale <= 0.5;
    QuotientBound(q - frac, 0.5, scale);
    QuotientBound(frac - q, 0.5, scale);
  }

  lemma RoundingError(m: real, p: nat)
    requires m >= 0.0
    ensures AbsR(m.Floor as real + (Rounded(m, p) as real) / (Pow10(p) as real) - m) <= HalfUnit(p)
  {
    RoundedBounds(m, p);
    ScaledError(Rounded(m, p) as real, FractionOf(m), Pow10(p) as real);
  }

  lemma ReadsRounded(m: real, p: nat)
    requires m >= 0.0 && p > 0
    requires Rounded(m, p) < Pow10(p)
    ensures AllDigits(FractionText(m, p))
    ensures ReadBack(m.Floor, FractionText(m, p))
            == m.Floor as real + (Rounded(m, p) as real) / (Pow10(p) as real)
  {
    FractionWidth(m, p);
  }

  lemma NoCarryIsAccurate(m: real, p: nat)
    requires m >= 0.0 && p > 0
    requires Rounded(m, p) < Pow10(p)
    ensures AllDigits(FractionText(m, p))
    ensures FractionError(m, FractionText(m, p)) <= HalfUnit(p)
  {
    ReadsRounded(m, p);
    RoundingError(m, p);
  }

  lemma OneTenth(scale: real)
    requires scale > 0.0
    ensures scale / (10.0 * scale) == 0.1
  {
    var q := scale / (10.0 * scale);
    assert q * (10.0 * scale) == scale;
    assert (10.0 * q) * scale == 1.0 * scale;
  }

  lemma TenthOfNext(p: nat)
    requires p > 0
    ensures (Pow10(p) as real) / (Pow10(p + 1) as real) == 0.1
    ensures Pow10(p) as real >= 10.0
  {
    OneTenth(Pow10(p) as real);
    assert Pow10(p) == 10 * Pow10(p - 1);
  }

  lemma LostCarry(frac: real, scale: real)
    requires scale >= 10.0
    requires frac * scale + 0.5 >= scale && frac < 1.0
    ensures frac - 0.1 > 0.5 / scale
  {
    assert (1.0 - frac) * scale <= 0.5;
    QuotientBound(1.0 - frac, 0.5, scale);
    var half := 0.5 / scale;
    assert half * scale == 0.5;
    QuotientBound(half, 0.5, 10.0) by {
      assert half * 10.0 <= half * scale;
    }
  }

  lemma CarryError(m: real, p: nat)
    requires m >= 0.0 && p > 0
    requires Rounded(m, p) == Pow10(p)
    ensures FractionOf(m) - 0.1 > HalfUnit(p)
  {
    TenthOfNext(p);
    RoundedBounds(m, p);
    LostCarry(FractionOf(m), Pow10(p) as real);
  }

  lemma CarryIsInaccurate(m: real, p: nat)
    requires m >= 0.0 && p > 0
    requires Rounded(m, p) == Pow10(p)
    ensures AllDigits(FractionText(m, p))
    ensures FractionError(m, FractionText(m, p)) > HalfUnit(p)
  {
    FractionWidth(m, p);
    TenthOfNext(p);
    CarryError(m, p);
  }

  /** The printed decimal is within half a unit of the last place of the value
      exactly when the fraction does not round up to a whole; otherwise it
      prints as .10..0 and the carry is lost. */
  lemma DoubleAccurate(value: real, precision: int)
    requires precision > 0
    ensures var p := Clip(precision);
            var m := AbsR(value);
            AllDigits(FractionText(m, p)) &&
            (FractionError(m, FractionText(m, p)) <= HalfUnit(p)
             <==> Scaled(m, p) < Pow10(p) as real - 0.5)
  {
    var p := Clip(precision);
    var m := AbsR(value);
    RoundedBounds(m, p);
    if Rounded(m, p) < Pow10(p) {
      NoCarryIsAccurate(m, p);
    } else {
      CarryIsInaccurate(m, p);
    }
  }

  /** 0.96 printed to one place reads 0.10. */
  lemma CarryIsLost()
    ensures Rounded(0.96, 1) == 10
    ensures DoubleText(0.96, 1) == "0.10"
  {
    assert Pow10(1) == 10;
    assert Rounded(0.96, 1) == 10;
    assert Digits(1) == "1" by { assert Digits(0) == ""; }
    assert Digits(10) == Digits(1) + [Digit(0)] == "10";
    assert FractionText(0.96, 1) == "10";
    assert AbsR(0.96).Floor == 0;
  }

  lemma NulEndsIt(from: array<char>, s: string, i: nat)
    requires Holds(from, s) && i <= |s| && from[i] == '\0'
    requires forall k :: 0 <= k < |s| ==> s[k] != '\0'
    ensures i == |s|
  {
    assert forall k :: 0 <= k < |s| ==> from[k] == s[k];
  }

  method Length(s: array<char>, ghost text: string) returns (n: nat)
    requires Holds(s, text)
    requires forall k :: 0 <= k < |text| ==> text[k] != '\0'
    ensures n == |text|
  {
    n := 0;
    while s[n] != '\0'
      invariant n <= |text|
      decreases |text| - n
    {
      n := n + 1;
    }
    NulEndsIt(s, text, n);
  }

  method Copy(from: array<char>, ghost s: string, str: array<char>, index0: nat) returns (index: nat)
    requires Holds(from, s) && from != str
    requires forall k :: 0 <= k < |s| ==> s[k] != '\0'
    requires index0 + |s| <= str.Length
    modifies str
    ensures index == index0 + |s|
    ensures str[..index] == old(str[..index0]) + s
  {
    index := index0;
    var i := 0;
    while from[i] != '\0'
      invariant 0 <= i <= |s| && index == index0 + i
      invariant from[..|s|] == s && from[|s|] == '\0'
      invariant str[..index] == old(str[..index0]) + s[..i]
      decreases |s| - i
    {
      assert i < |s| && from[i] == from[..|s|][i];
      str[index] := from[i];
      index := index + 1;
      i := i + 1;
      assert str[..index] == str[..index - 1] + [from[i - 1]];
      assert s[..i] == s[..i - 1] + [from[i - 1]];
    }
    NulEndsIt(from, s, i);
  }

  lemma TextHasNoNul(n: nat)
    ensures forall k :: 0 <= k < |Text(n)| ==> Text(n)[k] != '\0'
  {
    DigitsParse(n);
  }

  lemma SmallText(n: nat)
    requires n < TWO64
    ensures |Text(n)| <= 20
  {
    Uint64Digits(n);
  }

  lemma {:induction false} Pow10Monotone(m: nat, n: nat)
    requires m <= n
    ensures Pow10(m) <= Pow10(n)
  {
    if m < n {
      Pow10Monotone(m, n - 1);
    }
  }

  lemma RoundedFits(magnitude: real, p: nat)
    requires magnitude >= 0.0 && p <= 9
    ensures Rounded(magnitude, p) <= 1000000000
    ensures |Text(Rounded(magnitude, p))| <= 10
  {
    RoundedBounds(magnitude, p);
    Pow10Monotone(p, 9);
    assert Pow10(9) == 1000000000;
    DigitsLength(Rounded(magnitude, p), 10);
  }

  /** The inline copies of a printed integer into the output. */
  method AppendText(n: nat, str: array<char>, index0: nat) returns (index: nat)
    requires n < TWO64 && index0 + |Text(n)| <= str.Length
    modifies str
    ensures index == index0 + |Text(n)| && |Text(n)| <= 20
    ensures str[..index] == old(str[..index0]) + Text(n)
  {
    var digits := new char[MAX_DOUBLE_DIGITS];
    SmallText(n);
    TextHasNoNul(n);
    Uint64ToStr(n, digits);
    index := Copy(digits, Text(n), str, index0);
  }

  method RoundFraction(value: real, precision: nat) returns (digits: nat)
    requires value >= 0.0
    ensures digits == Rounded(value, precision)
  {
    var multiplier := 1.0;
    for i := 0 to precision
      invariant multiplier == Pow10(i) as real
    {
      multiplier := multiplier * 10.0;
    }
    var scaled := (value - value.Floor as real) * multiplier;
    assert scaled == Scaled(value, precision);
    digits := (scaled + 0.5).Floor;
  }

  method PadZeros(n: nat, str: array<char>, precision0: nat, index0: nat) returns (index: nat)
    requires n <= 1000000000 && precision0 <= 9
    requires index0 + 9 <= str.Length
    modifies str
    ensures index == index0 + MaxI(0, precision0 - |Text(n)|)
    ensures str[..index] == old(str[..index0]) + Zeros(index - index0)
  {
    index := index0;
    var precision := precision0;
    var digits := new char[MAX_DOUBLE_DIGITS];
    SmallText(n);
    TextHasNoNul(n);
    Uint64ToStr(n, digits);
    var count := Length(digits, Text(n));
    while count < precision
      invariant precision + (index - index0) == precision0
      invariant index0 <= index && (index == index0 || count <= precision)
      invariant str[..index] == old(str[..index0]) + Zeros(index - index0)
      decreases precision
    {
      str[index] := '0';
      index := index + 1;
      precision := precision - 1;
      assert str[..index] == str[..index - 1] + "0";
    }
  }

  lemma FractionFits(value: real, p: nat)
    requires value >= 0.0 && 0 < p <= 9
    ensures |FractionText(value, p)| <= 10
  {
    FractionWidth(value, p);
  }

  method AppendFraction(value: real, str: array<char>, precision: nat, index0: nat) returns (index: nat)
    requires 0.0 <= value < TWO64 as real && 0 < precision <= 9
    requires index0 + 12 <= str.Length
    modifies str
    ensures index < str.Length
    ensures str[..index] == old(str[..index0]) + ("." + FractionText(value, precision))
  {
    str[index0] := '.';
    index := index0 + 1;
    var digits := RoundFraction(value, precision);
    RoundedFits(value, precision);
    FractionFits(value, precision);
    index := PadZeros(digits, str, precision, index);
    index := AppendText(digits, str, index);
  }

  method DoubleToStr(value0: real, str: array<char>, precision0: int)
    requires AbsR(value0) < TWO64 as real
    requires str.Length >= 34
    modifies str
    ensures Holds(str, DoubleText(value0, precision0))
  {
    var value, precision := value0, precision0;
    if precision > 9 {
      precision := 9;
    }
    var index := 0;
    ghost var sign := "";
    if value < 0.0 {
      str[0] := '-';
      index := 1;
      value := -value;
      sign := "-";
    }
    assert str[..index] == sign && value == AbsR(value0);
    SmallText(value.Floor);
    index := AppendText(value.Floor, str, index);
    if precision > 0 {
      index := AppendFraction(value, str, precision, index);
    }
    assert str[..index] == DoubleText(value0, precision0);
    str[index] := '\0';
  }

  // ---- Reading the whole text back ----

  lemma NotEmpty(n: nat)
    ensures |Text(n)| > 0
  {
  }

  /** The text of a number reads back part by part: the sign, the whole part up
      to the point, and as many fraction digits as fit the precision. */
  lemma DoubleTextReads(value: real, precision: int)
    ensures var s := DoubleText(value, precision);
            var m := if value < 0.0 then -value else value;
            var start := if value < 0.0 then 1 else 0;
            var point := start + |Text(m.Floor)|;
            point <= |s| && (s[0] == '-' <==> value < 0.0) &&
            AllDigits(s[start..point]) && Parse(s[start..point]) == m.Floor &&
            (precision <= 0 ==> |s| == point) &&
            (precision > 0 ==>
               point < |s| && s[point] == '.' && AllDigits(s[point + 1..]) &&
               Parse(s[point + 1..]) == Rounded(m, if precision > 9 then 9 else precision))
  {
    hide FractionText, Rounded, Text;
    var s := DoubleText(value, precision);
    var m := AbsR(value);
    var p := Clip(precision);
    TextParse(m.Floor);
    NotEmpty(m.Floor);
    var sign := if value < 0.0 then "-" else "";
    var whole := Text(m.Floor);
    var tail := if p > 0 then "." + FractionText(m, p) else "";
    assert s == sign + whole + tail;
    assert s[|sign|..|sign| + |whole|] == whole;
    assert s[0] == if value < 0.0 then '-' else whole[0];
    if p > 0 {
      FractionWidth(m, p);
      assert s[|sign| + |whole| + 1..] == FractionText(m, p);
    }
  }

  /** Rounded, as a number: the nearest multiple of the last place. */
  lemma RoundedIsNearest(m: real, p: nat)
    requires m >= 0.0
    ensures var x := (m - m.Floor as real) * (Pow10(p) as real);
            x - 0.5 < Rounded(m, p) as real <= x + 0.5
  {
  }
}
