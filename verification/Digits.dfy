/** Decimal digits: printing with zero fill, and the scanning loops that read numbers back, for file names and format strings. */
module Digits {
  import opened Wrappers

  predicate IsDigit(c: char)
  {
    '0' <= c <= '9'
  }

  predicate AllDigits(s: string)
  {
    forall i :: 0 <= i < |s| ==> IsDigit(s[i])
  }

  function DigitValue(c: char): (n: nat)
    requires IsDigit(c)
    ensures n < 10
  {
    c as int - '0' as int
  }

  function DigitChar(n: nat): (c: char)
    requires n < 10
    ensures IsDigit(c) && DigitValue(c) == n
  {
    ('0' as int + n) as char
  }

  /** The number a string of digits stands for. */
  function Value(s: string): (n: nat)
    requires AllDigits(s)
  {
    if s == "" then 0 else 10 * Value(s[..|s| - 1]) + DigitValue(s[|s| - 1])
  }

  /** A number in decimal, without leading zeros. */
  function Decimal(n: nat): (s: string)
    ensures AllDigits(s) && s != "" && Value(s) == n
  {
    if n < 10 then
      var s := [DigitChar(n)];
      assert s[..0] == "";
      s
    else
      var front, last := Decimal(n / 10), [DigitChar(n % 10)];
      assert (front + last)[..|front|] == front;
      front + last
  }

  /** Filled with zeros on the left up to a width. */
  function ZeroFilled(s: string, width: nat): (r: string)
    requires AllDigits(s)
    ensures AllDigits(r) && |r| >= width && |r| >= |s|
    ensures Value(r) == Value(s)
    decreases width - |s|
  {
    if |s| >= width then s
    else
      ValueAfterZero(s);
      ZeroFilled("0" + s, width)
  }

  lemma {:induction false} ValueAfterZero(s: string)
    requires AllDigits(s)
    ensures Value("0" + s) == Value(s)
    decreases |s|
  {
    if s == "" {
      assert ("0" + s)[..0] == "";
    } else {
      ValueAfterZero(s[..|s| - 1]);
      assert ("0" + s)[..|s|] == "0" + s[..|s| - 1];
    }
  }

  /** Digits added on the right make a number at least ten times as large. */
  lemma {:induction false} ValueWithMoreDigits(a: string, b: string)
    requires AllDigits(a) && AllDigits(b)
    ensures AllDigits(a + b)
    ensures b != "" ==> Value(a + b) >= 10 * Value(a)
    ensures Value(a) == 0 ==> Value(a + b) == Value(b)
    decreases |b|
  {
    if b == "" {
      assert a + b == a;
    } else {
      ValueWithMoreDigits(a, b[..|b| - 1]);
      assert (a + b)[..|a + b| - 1] == a + b[..|b| - 1];
      if b[..|b| - 1] == "" {
        assert a + b[..|b| - 1] == a;
      }
    }
  }

  /** Appended digits leave the number unchanged only where both parts are zero. */
  lemma MoreDigitsSameValueIff(a: string, b: string)
    requires AllDigits(a) && AllDigits(b)
    ensures AllDigits(a + b)
    ensures Value(a + b) == Value(a) <==> (b == "" || (Value(a) == 0 && Value(b) == 0))
  {
    ValueWithMoreDigits(a, b);
    if b == "" {
      assert a + b == a;
    }
  }

  /** Length of the longest prefix of digits. */
  function DigitRun(s: string): (n: nat)
    ensures n <= |s| && AllDigits(s[..n])
    ensures n < |s| ==> !IsDigit(s[n])
  {
    if s == "" || !IsDigit(s[0]) then 0
    else
      var n := DigitRun(s[1..]);
      assert s[..n + 1] == [s[0]] + s[1..][..n];
      n + 1
  }

  lemma {:induction false} DigitRunIs(s: string, n: nat)
    requires n <= |s| && AllDigits(s[..n])
    requires n < |s| ==> !IsDigit(s[n])
    ensures DigitRun(s) == n
    decreases n
  {
    if n > 0 {
      assert IsDigit(s[..n][0]);
      assert s[..n] == [s[0]] + s[1..][..n - 1];
      assert forall i :: 0 <= i < n - 1 ==> s[1..][i] == s[..n][i + 1];
      DigitRunIs(s[1..], n - 1);
    }
  }

  lemma DigitRunStep(s: string, it: nat)
    requires it < |s|
    ensures IsDigit(s[it]) ==> DigitRun(s[it..]) == 1 + DigitRun(s[it + 1..])
    ensures !IsDigit(s[it]) ==> DigitRun(s[it..]) == 0
  {
    assert s[it..][0] == s[it];
    assert s[it..][1..] == s[it + 1..];
  }

  lemma EmptyValue()
    ensures Value("") == 0
  {
  }

  lemma ValueStep(d: string, i: nat)
    requires AllDigits(d) && i < |d|
    ensures Value(d[..i + 1]) == 10 * Value(d[..i]) + DigitValue(d[i])
  {
    assert d[..i + 1][..i] == d[..i];
  }

  lemma LongerIsLarger(a: string, b: string)
    requires AllDigits(a) && AllDigits(b)
    ensures AllDigits(a + b) && Value(a + b) >= Value(a)
  {
    ValueWithMoreDigits(a, b);
    if b == "" {
      assert a + b == a;
    }
  }

  method SkipDigits(s: string, it: nat) returns (next: nat)
    requires it <= |s|
    ensures next == it + DigitRun(s[it..]) <= |s|
  {
    next := it;
    while next < |s| && IsDigit(s[next])
      invariant it <= next <= |s|
      invariant it + DigitRun(s[it..]) == next + DigitRun(s[next..])
    {
      DigitRunStep(s, next);
      next := next + 1;
    }
    if next < |s| {
      DigitRunStep(s, next);
    }
  }

  /** Reading of an unsigned number: fails on no digits and on overflow. */
  method ExtractUint(s: string, it: nat, end: nat) returns (value: Option<nat>)
    requires it <= end <= |s| && AllDigits(s[it..end])
    ensures value == if it == end || Value(s[it..end]) >= WORD then None else Some(Value(s[it..end]))
  {
    hide Value;
    var d := s[it..end];
    var n, i := 0, 0;
    assert d[..0] == "";
    EmptyValue();
    while i < |d|
      invariant 0 <= i <= |d|
      invariant n == Value(d[..i]) && n < WORD
    {
      ValueStep(d, i);
      n := 10 * n + DigitValue(d[i]);
      i := i + 1;
      if n >= WORD {
        LongerIsLarger(d[..i], d[i..]);
        assert d[..i] + d[i..] == d;
        return None;
      }
    }
    assert d[..i] == d;
    value := if it == end then None else Some(n);
  }
}
