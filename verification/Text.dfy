/** Decimal numerals and a few facts about strings. */
module Text {

  function Digit(d: nat): (c: char)
    requires d < 10
    ensures IsDigit(c) && DigitValue(c) == d
  {
    "0123456789"[d]
  }

  predicate IsDigit(c: char) {
    '0' <= c <= '9'
  }

  function DigitValue(c: char): (d: nat)
    requires IsDigit(c)
    ensures d < 10
  {
    c as int - '0' as int
  }

  /** The decimal numeral of `n`, without leading zeros. */
  function Decimal(n: nat): (s: string)
    ensures s != [] && forall i :: 0 <= i < |s| ==> IsDigit(s[i])
  {
    if n < 10 then [Digit(n)] else Decimal(n / 10) + [Digit(n % 10)]
  }

  /** The value of a string of digits, leading zeros or not. */
  function DecimalValue(s: string): nat
    requires forall i :: 0 <= i < |s| ==> IsDigit(s[i])
  {
    if s == [] then 0 else DecimalValue(s[..|s| - 1]) * 10 + DigitValue(s[|s| - 1])
  }

  lemma {:induction false} DecimalRoundTrip(n: nat)
    ensures DecimalValue(Decimal(n)) == n
  {
    if n < 10 {
      assert Decimal(n)[..0] == [];
    } else {
      DecimalRoundTrip(n / 10);
      assert Decimal(n)[..|Decimal(n)| - 1] == Decimal(n / 10);
    }
  }

  lemma DecimalInjective(m: nat, n: nat)
    requires Decimal(m) == Decimal(n)
    ensures m == n
  {
    DecimalRoundTrip(m);
    DecimalRoundTrip(n);
  }

  function Zeros(k: nat): (s: string)
    ensures |s| == k && forall i :: 0 <= i < k ==> s[i] == '0'
  {
    seq(k, i => '0')
  }

  /** The numeral of `n`, with leading zeros up to `width` digits. */
  function Padded(n: nat, width: nat): (s: string)
    ensures s != [] && forall i :: 0 <= i < |s| ==> IsDigit(s[i])
  {
    var s := Decimal(n);
    if |s| >= width then s else Zeros(width - |s|) + s
  }

  lemma {:induction false} ZerosValue(k: nat)
    ensures DecimalValue(Zeros(k)) == 0
  {
    if k > 0 {
      assert Zeros(k)[..k - 1] == Zeros(k - 1);
      ZerosValue(k - 1);
    }
  }

  lemma {:induction false} LeadingZeros(k: nat, s: string)
    requires forall i :: 0 <= i < |s| ==> IsDigit(s[i])
    ensures forall i :: 0 <= i < |Zeros(k) + s| ==> IsDigit((Zeros(k) + s)[i])
    ensures DecimalValue(Zeros(k) + s) == DecimalValue(s)
  {
    if s == [] {
      assert Zeros(k) + s == Zeros(k);
      ZerosValue(k);
    } else {
      var n := |s| - 1;
      LeadingZeros(k, s[..n]);
      assert (Zeros(k) + s)[..k + n] == Zeros(k) + s[..n];
    }
  }

  lemma PaddedValue(n: nat, width: nat)
    ensures DecimalValue(Padded(n, width)) == n
  {
    DecimalRoundTrip(n);
    var s := Decimal(n);
    if |s| < width {
      LeadingZeros(width - |s|, s);
    }
  }

  /** The number a text of digits stands for. */
  function Number(s: string): int {
    if s != [] && forall i :: 0 <= i < |s| ==> IsDigit(s[i]) then DecimalValue(s) else -1
  }

  lemma PaddedNumber(n: nat, width: nat)
    ensures Number(Padded(n, width)) == n
  {
    PaddedValue(n, width);
  }

  lemma {:induction false} NoLeadingZero(n: nat)
    ensures n > 0 ==> Decimal(n)[0] != '0'
  {
    if n >= 10 {
      NoLeadingZero(n / 10);
    }
  }

  lemma AtLeast(n: nat, width: nat)
    ensures |Padded(n, width)| >= width
  {
  }

  lemma PaddedLength(n: nat)
    ensures n < 100 ==> |Padded(n, 2)| == 2
    ensures n < 1000 ==> |Padded(n, 3)| == 3
  {
    assert n < 10 ==> |Decimal(n)| == 1;
    assert 10 <= n < 100 ==> Decimal(n) == Decimal(n / 10) + [Digit(n % 10)] && |Decimal(n / 10)| == 1;
    assert 100 <= n < 1000 ==> |Decimal(n / 10)| == 2 by {
      assert 10 <= n / 10 < 100 ==> |Decimal(n / 10 / 10)| == 1;
    }
  }

  /** What stands between a common prefix and a common suffix is determined. */
  lemma Cancel<T>(a: seq<T>, x: seq<T>, y: seq<T>, b: seq<T>)
    requires a + x + b == a + y + b
    ensures x == y
  {
    assert |x| == |y|;
    assert (a + x + b)[|a|..|a| + |x|] == x;
    assert (a + y + b)[|a|..|a| + |y|] == y;
  }

  /** Up to the first separator, two strings that have one must agree. */
  lemma FirstField<T>(x: seq<T>, y: seq<T>, sep: T, r: seq<T>, s: seq<T>)
    requires sep !in x && sep !in y && x + [sep] + r == y + [sep] + s
    ensures x == y && r == s
  {
    var u := x + [sep] + r;
    SeparatorAt(x, sep, r);
    SeparatorAt(y, sep, s);
    assert |x| == |y|;
    assert u[..|x|] == x && u[..|y|] == y;
    assert u[|x| + 1..] == r && u[|y| + 1..] == s;
  }

  lemma SeparatorAt<T>(x: seq<T>, sep: T, r: seq<T>)
    requires sep !in x
    ensures var u := x + [sep] + r;
      u[|x|] == sep && forall i :: 0 <= i < |x| ==> u[i] != sep
  {
    var u := x + [sep] + r;
    assert forall i :: 0 <= i < |x| ==> u[i] == x[i];
  }
}
