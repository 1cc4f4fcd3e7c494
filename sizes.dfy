/** The byte-size formatter `human_size`: a unit ladder B, KB, MB, GB walked
    by repeated division by 1024, and the two-decimal rendering of the result. */
module Sizes {
  import opened Paths

  /** The unit ladder, in the order the formatter walks it. */
  const Units: seq<string> := ["B", "KB", "MB", "GB"]

  /** 1024 to the power k. */
  function Pow1024(k: nat): (r: nat)
    ensures r >= 1
    ensures k >= 1 ==> r >= 1024
  {
    if k == 0 then 1 else 1024 * Pow1024(k - 1)
  }

  /** Formats `size` bytes as "<magnitude with two decimals> <unit>".
      The magnitude is divided by 1024 while it is at least 1024, once per unit
      of the ladder; a size of 1024^4 bytes or more is divided a fourth time
      and still labelled "GB". */
  method HumanSize(size: int) returns (text: string)
    ensures size < 1024 ==> text == FormatFixed2(size as real) + " B"
    ensures forall k :: 1 <= k <= 3 && Pow1024(k) <= size < Pow1024(k + 1) ==>
      text == FormatFixed2(size as real / Pow1024(k) as real) + " " + Units[k]
    ensures Pow1024(4) <= size ==>
      text == FormatFixed2(size as real / Pow1024(4) as real) + " GB"
  {
    var value := size as real;
    var unit := Units[0];
    var i := 0;
    while i < |Units|
      invariant 0 <= i <= |Units|
      invariant value == size as real / Pow1024(i) as real
      invariant i > 0 ==> Pow1024(i) <= size && unit == Units[i - 1]
    {
      unit := Units[i];
      if value < 1024.0 {
        BelowNext(size, i);
        break;
      }
      DividedAtLeast(size, i);
      DivideStep(size, i);
      value := value / 1024.0;
      i := i + 1;
    }
    UnitIndexUnique(size, i);
    text := FormatFixed2(value) + " " + unit;
  }

  /** One more division by 1024 is one more power of 1024 in the denominator. */
  lemma DivideStep(size: int, i: nat)
    ensures (size as real / Pow1024(i) as real) / 1024.0 == size as real / Pow1024(i + 1) as real
  {
    var p := Pow1024(i) as real;
    assert Pow1024(i + 1) as real == p * 1024.0;
    DivideTwice(size as real, p, 1024.0);
  }

  /** Dividing by b and then by c is dividing by b * c. */
  lemma DivideTwice(a: real, b: real, c: real)
    requires b > 0.0 && c > 0.0
    ensures (a / b) / c == a / (b * c)
  {
    var x := a / b;
    assert x * b == a;
    var y := x / c;
    assert y * c == x;
    assert y * (b * c) == (y * c) * b;
    assert y * (b * c) == a;
  }

  /** The bracket 1024^i <= size < 1024^(i+1) the loop stops in is the only one
      the size falls in; i == 4 stands for "1024^4 or more". */
  lemma UnitIndexUnique(size: int, i: nat)
    requires i <= 4
    requires i > 0 ==> Pow1024(i) <= size
    requires i < 4 ==> size < Pow1024(i + 1)
    ensures size < 1024 ==> i == 0
    ensures forall k :: 1 <= k <= 3 && Pow1024(k) <= size < Pow1024(k + 1) ==> k == i
    ensures Pow1024(4) <= size ==> i == 4
  {
    forall k | 1 <= k <= 3 && Pow1024(k) <= size < Pow1024(k + 1)
      ensures k == i
    {
      if k < i {
        PowGrows(k + 1, i);
      } else if i < k {
        PowGrows(i + 1, k);
      }
    }
    if i < 4 {
      PowGrows(i + 1, 4);
    }
  }

  /** A magnitude still at least 1024 after i divisions means the size is at least 1024^(i+1). */
  lemma DividedAtLeast(size: int, i: nat)
    requires size as real / Pow1024(i) as real >= 1024.0
    ensures Pow1024(i + 1) <= size
  {
    var n := Pow1024(i);
    assert Pow1024(i + 1) == 1024 * n;
    QuotientAtLeast(size as real, n as real, 1024.0);
    assert (1024 * n) as real == 1024.0 * n as real;
  }

  /** A magnitude below 1024 after i divisions means the size is below 1024^(i+1). */
  lemma BelowNext(size: int, i: nat)
    requires size as real / Pow1024(i) as real < 1024.0
    ensures size < Pow1024(i + 1)
  {
    var n := Pow1024(i);
    assert Pow1024(i + 1) == 1024 * n;
    QuotientBelow(size as real, n as real, 1024.0);
    assert (1024 * n) as real == 1024.0 * n as real;
  }

  /** a / p >= c with p positive means a >= c * p. */
  lemma QuotientAtLeast(a: real, p: real, c: real)
    requires p > 0.0 && a / p >= c
    ensures c * p <= a
  {
    var v := a / p;
    assert v * p == a;
    ScaleLe(c, v, p);
  }

  /** a / p < c with p positive means a < c * p. */
  lemma QuotientBelow(a: real, p: real, c: real)
    requires p > 0.0 && a / p < c
    ensures a < c * p
  {
    var v := a / p;
    assert v * p == a;
    ScaleLt(v, c, p);
  }

  lemma ScaleLe(a: real, b: real, p: real)
    requires p > 0.0 && a <= b
    ensures a * p <= b * p
  {
    assert b * p - a * p == (b - a) * p;
  }

  lemma ScaleLt(a: real, b: real, p: real)
    requires p > 0.0 && a < b
    ensures a * p < b * p
  {
    assert b * p - a * p == (b - a) * p;
  }

  lemma {:induction false} PowGrows(a: nat, b: nat)
    requires a <= b
    ensures Pow1024(a) <= Pow1024(b)
  {
    if a < b {
      PowGrows(a, b - 1);
    }
  }

  /** The magnitude shown for a size in the k-th unit (k = 1..3) lies in [1, 1024);
      past 1024^4 bytes the "GB" magnitude is at least 1 with no upper bound. */
  lemma MagnitudeInRange(size: int, k: nat)
    requires 1 <= k <= 4 && Pow1024(k) <= size
    ensures 1.0 <= size as real / Pow1024(k) as real
    ensures k < 4 && size < Pow1024(k + 1) ==> size as real / Pow1024(k) as real < 1024.0
  {
    var p := Pow1024(k) as real;
    var v := size as real / p;
    assert size as real == v * p;
    if k < 4 && size < Pow1024(k + 1) {
      assert (size as real) < 1024.0 * p;
    }
  }

  /** Rounding of a non-negative real to the nearest integer, ties to the even
      neighbour: how a float is rounded when it is printed with a fixed number
      of decimals. */
  function RoundHalfEven(x: real): (n: int)
    requires x >= 0.0
    ensures n >= 0
    ensures x - 0.5 <= n as real <= x + 0.5
    ensures n as real == x + 0.5 || n as real == x - 0.5 ==> n % 2 == 0
  {
    var f := x.Floor;
    var frac := x - f as real;
    if frac < 0.5 then f
    else if frac > 0.5 then f + 1
    else if f % 2 == 0 then f
    else f + 1
  }

  /** The decimal notation of n, without leading zeros. */
  function NatToString(n: nat): (s: string)
    ensures |s| >= 1
    ensures forall i :: 0 <= i < |s| ==> '0' <= s[i] <= '9'
    decreases n
  {
    if n < 10 then [DigitChar(n)] else NatToString(n / 10) + [DigitChar(n % 10)]
  }

  /** The value of a string of decimal digits. */
  function DigitsValue(s: string): (n: nat)
    requires forall i :: 0 <= i < |s| ==> '0' <= s[i] <= '9'
  {
    if s == [] then 0
    else 10 * DigitsValue(s[..|s| - 1]) + (s[|s| - 1] as int - '0' as int)
  }

  /** Reading back the decimal notation of n gives n. */
  lemma {:induction false} NatToStringRoundTrip(n: nat)
    ensures DigitsValue(NatToString(n)) == n
  {
    var s := NatToString(n);
    if n >= 10 {
      NatToStringRoundTrip(n / 10);
      assert s[..|s| - 1] == NatToString(n / 10);
    }
  }

  /** A real printed with exactly two decimals ("%.2f"): the absolute value is
      rounded to hundredths, ties to even, and a minus sign precedes a negative value. */
  function FormatFixed2(v: real): (s: string)
    ensures |s| >= 4 && s[|s| - 3] == '.'
    ensures '0' <= s[|s| - 2] <= '9' && '0' <= s[|s| - 1] <= '9'
  {
    var a := if v < 0.0 then -v else v;
    var c := RoundHalfEven(a * 100.0);
    (if v < 0.0 then "-" else "") + NatToString(c / 100) + "." + [DigitChar(c / 10 % 10), DigitChar(c % 10)]
  }

  /** The value denoted by a non-negative "%.2f" rendering: integer part plus hundredths. */
  function Fixed2Value(s: string): (v: real)
    requires |s| >= 4 && s[|s| - 3] == '.'
    requires forall i :: 0 <= i < |s| && i != |s| - 3 ==> '0' <= s[i] <= '9'
  {
    DigitsValue(s[..|s| - 3]) as real + DigitsValue(s[|s| - 2..]) as real / 100.0
  }

  /** The digits printed for a count c of hundredths read back as c / 100. */
  lemma Fixed2Digits(c: nat)
    ensures var s := NatToString(c / 100) + "." + [DigitChar(c / 10 % 10), DigitChar(c % 10)];
      (forall i :: 0 <= i < |s| && i != |s| - 3 ==> '0' <= s[i] <= '9') &&
      Fixed2Value(s) * 100.0 == c as real
  {
    var ip := NatToString(c / 100);
    var fp := [DigitChar(c / 10 % 10), DigitChar(c % 10)];
    var s := ip + "." + fp;
    assert s[..|s| - 3] == ip;
    assert s[|s| - 2..] == fp;
    NatToStringRoundTrip(c / 100);
    assert fp[..1] == [DigitChar(c / 10 % 10)];
    assert fp[..1][..0] == [];
    assert DigitsValue(fp[..1]) == c / 10 % 10;
    assert DigitsValue(fp) == c % 100;
  }

  /** Rendering a non-negative value with two decimals is off by at most half a
      hundredth, and exact when the value is a whole number of hundredths. */
  lemma FormatFixed2Accurate(v: real)
    requires v >= 0.0
    ensures var s := FormatFixed2(v);
      (forall i :: 0 <= i < |s| && i != |s| - 3 ==> '0' <= s[i] <= '9') &&
      v - 0.005 <= Fixed2Value(s) <= v + 0.005 &&
      ((v * 100.0).Floor as real == v * 100.0 ==> Fixed2Value(s) == v)
  {
    var c := RoundHalfEven(v * 100.0);
    var s := FormatFixed2(v);
    assert s == NatToString(c / 100) + "." + [DigitChar(c / 10 % 10), DigitChar(c % 10)];
    Fixed2Digits(c);
    var x := Fixed2Value(s);
    assert x * 100.0 == c as real;
    assert v * 100.0 - 0.5 <= x * 100.0 <= v * 100.0 + 0.5;
    if (v * 100.0).Floor as real == v * 100.0 {
      assert c == (v * 100.0).Floor;
    }
  }

  /** The exact renderings quoted for the formatter: 0 bytes, 1536 bytes and 1 MiB. */
  lemma KnownRenderings()
    ensures FormatFixed2(0.0) == "0.00"
    ensures FormatFixed2(1.5) == "1.50"
    ensures FormatFixed2(1.0) == "1.00"
  {
    assert RoundHalfEven(0.0) == 0;
    assert NatToString(0) == "0";
    assert DigitChar(0) == '0';
    assert RoundHalfEven(150.0) == 150;
    assert RoundHalfEven(100.0) == 100;
    assert NatToString(1) == "1";
    assert DigitChar(5) == '5';
  }

  /** human_size on the sizes its documentation quotes: 0 bytes and 1536 bytes. */
  method HumanSizeSmallExamples() returns (zero: string, kb: string)
    ensures zero == "0.00 B" && kb == "1.50 KB"
  {
    KnownRenderings();
    zero := HumanSize(0);
    assert Pow1024(1) == 1024;
    assert Pow1024(2) == 1048576;
    kb := HumanSize(1536);
    assert kb == FormatFixed2(1536 as real / Pow1024(1) as real) + " " + Units[1];
    assert 1536 as real / Pow1024(1) as real == 1.5;
  }

  /** human_size on 1 MiB, and on 1024^4 bytes, which the fourth division
      still labels "GB". */
  method HumanSizeLargeExamples() returns (mb: string, tb: string)
    ensures mb == "1.00 MB" && tb == "1.00 GB"
  {
    KnownRenderings();
    assert Pow1024(2) == 1048576;
    assert Pow1024(3) == 1024 * 1048576;
    mb := HumanSize(1048576);
    assert mb == FormatFixed2(1048576 as real / Pow1024(2) as real) + " " + Units[2];
    assert 1048576 as real / Pow1024(2) as real == 1.0;
    tb := HumanSize(Pow1024(4));
    assert Pow1024(4) as real / Pow1024(4) as real == 1.0;
  }
}
