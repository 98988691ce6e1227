/** Decimal text of integers: Python's `%d` and `%0Nd` formatting and the
    `int()` conversion of a whitespace-free token. */
module Decimal {
  import opened Wrappers

  predicate IsDigit(c: char) {
    '0' <= c <= '9'
  }

  predicate AllDigits(s: string) {
    forall i :: 0 <= i < |s| ==> IsDigit(s[i])
  }

  function DigitValue(c: char): (n: nat)
    requires IsDigit(c)
    ensures n < 10
  {
    (c as int) - ('0' as int)
  }

  function DigitChar(n: nat): (c: char)
    requires n < 10
    ensures IsDigit(c) && DigitValue(c) == n
  {
    (('0' as int) + n) as char
  }

  /** The number a digit string denotes, most significant digit first. */
  function DigitsValue(s: string): nat
    requires AllDigits(s)
  {
    if s == [] then 0 else DigitsValue(s[..|s| - 1]) * 10 + DigitValue(s[|s| - 1])
  }

  /** `"%d" % n` for a non-negative n: the shortest digit string of n. */
  function NatText(n: nat): (s: string)
    ensures 1 <= |s| && AllDigits(s)
    ensures |s| > 1 ==> s[0] != '0'
    ensures n < 10 <==> |s| == 1
    decreases n
  {
    if n < 10 then [DigitChar(n)] else NatText(n / 10) + [DigitChar(n % 10)]
  }

  lemma {:induction false} NatTextValue(n: nat)
    ensures DigitsValue(NatText(n)) == n
    decreases n
  {
    if n >= 10 {
      var s := NatText(n);
      assert s[..|s| - 1] == NatText(n / 10);
      NatTextValue(n / 10);
    }
  }

  /** `"%d" % n`: a minus sign in front of the digits of a negative number. */
  function IntText(n: int): (s: string)
    ensures 1 <= |s|
    ensures n >= 0 <==> AllDigits(s)
    ensures n < 0 <==> s[0] == '-'
  {
    if n < 0 then
      var s := "-" + NatText(-n);
      assert !IsDigit(s[0]);
      s
    else NatText(n)
  }

  function Zeros(k: nat): (s: string)
    ensures |s| == k && AllDigits(s)
  {
    seq(k, _ => '0')
  }

  lemma {:induction false} ZerosPrefixValue(k: nat, t: string)
    requires AllDigits(t)
    ensures AllDigits(Zeros(k) + t) && DigitsValue(Zeros(k) + t) == DigitsValue(t)
    decreases |t|
  {
    var s := Zeros(k) + t;
    if t == [] {
      assert s == Zeros(k);
      ZerosValue(k);
    } else {
      assert s[..|s| - 1] == Zeros(k) + t[..|t| - 1];
      ZerosPrefixValue(k, t[..|t| - 1]);
    }
  }

  lemma {:induction false} ZerosValue(k: nat)
    ensures DigitsValue(Zeros(k)) == 0
  {
    if k > 0 {
      assert Zeros(k)[..k - 1] == Zeros(k - 1);
      ZerosValue(k - 1);
    }
  }

  /** `"%0<width>d" % n`: left-padded with zeros to at least `width` digits. */
  function PadText(n: nat, width: nat): (s: string)
    ensures AllDigits(s)
    ensures |s| == if |NatText(n)| >= width then |NatText(n)| else width
    ensures DigitsValue(s) == n
  {
    var t := NatText(n);
    NatTextValue(n);
    if |t| >= width then t
    else
      ZerosPrefixValue(width - |t|, t);
      Zeros(width - |t|) + t
  }

  /** `"%02d" % n` for any integer: the sign of a negative number counts
      toward the width, so it then needs no padding. */
  function IntText02(n: int): (s: string)
    ensures 0 <= n < 100 ==> |s| == 2 && AllDigits(s) && DigitsValue(s) == n
    ensures n < 0 ==> s == IntText(n)
  {
    if n < 0 then IntText(n) else PadText(n, 2)
  }

  /** Python's `int(tok)` on a token without white space: an optional sign
      followed by at least one digit; anything else raises ValueError. */
  function ParseInt(tok: string): (r: Option<int>)
    ensures r.Some? <==> (|tok| >= 1 && (AllDigits(tok) ||
                          ((tok[0] == '-' || tok[0] == '+') && |tok| >= 2 && AllDigits(tok[1..]))))
  {
    if |tok| >= 1 && AllDigits(tok) then Some(DigitsValue(tok))
    else if |tok| >= 2 && tok[0] == '-' && AllDigits(tok[1..]) then Some(-(DigitsValue(tok[1..]) as int))
    else if |tok| >= 2 && tok[0] == '+' && AllDigits(tok[1..]) then Some(DigitsValue(tok[1..]))
    else None
  }

  lemma ParseIntOfText(n: int)
    ensures ParseInt(IntText(n)) == Some(n)
  {
    if n < 0 {
      ParseIntOfNegative(-n);
    } else {
      ParseIntOfNat(n);
    }
  }

  lemma ParseIntOfNat(n: nat)
    ensures ParseInt(NatText(n)) == Some(n)
  {
    NatTextValue(n);
  }

  lemma ParseIntOfNegative(m: nat)
    requires m > 0
    ensures ParseInt("-" + NatText(m)) == Some(-(m as int))
  {
    var t := "-" + NatText(m);
    assert t[1..] == NatText(m);
    assert !IsDigit(t[0]);
    NatTextValue(m);
  }

  function Pow10(n: nat): (p: nat)
    ensures p >= 1
  {
    if n == 0 then 1 else 10 * Pow10(n - 1)
  }

  /** A string of n digits denotes a number below 10^n. */
  lemma {:induction false} DigitsValueBound(s: string)
    requires AllDigits(s)
    ensures DigitsValue(s) < Pow10(|s|)
    decreases |s|
  {
    if s != [] {
      DigitsValueBound(s[..|s| - 1]);
    }
  }

  lemma {:induction false} Pow10Add(a: nat, b: nat)
    ensures Pow10(a + b) == Pow10(a) * Pow10(b)
    decreases b
  {
    if b > 0 {
      Pow10Add(a, b - 1);
      assert Pow10(a + b) == 10 * Pow10(a + b - 1);
      TenTimes(Pow10(a), Pow10(b - 1));
    }
  }

  lemma TenTimes(x: int, y: int)
    ensures 10 * (x * y) == x * (10 * y)
  {
  }

  lemma AllDigitsAppend(a: string, b: string)
    requires AllDigits(a) && AllDigits(b)
    ensures AllDigits(a + b)
  {
    forall i | 0 <= i < |a + b| ensures IsDigit((a + b)[i]) {
      if i >= |a| { assert (a + b)[i] == b[i - |a|]; }
    }
  }

  lemma ShiftDigit(x: int, p: int, y: int, d: int)
    ensures (x * p + y) * 10 + d == x * (10 * p) + (y * 10 + d)
  {
  }

  /** Appending digits shifts the value left by their count and adds theirs. */
  lemma {:induction false} DigitsValueAppend(a: string, b: string)
    requires AllDigits(a) && AllDigits(b)
    ensures AllDigits(a + b)
    ensures DigitsValue(a + b) == DigitsValue(a) * Pow10(|b|) + DigitsValue(b)
    decreases |b|
  {
    AllDigitsAppend(a, b);
    if b == [] {
      assert a + b == a;
    } else {
      var s := a + b;
      var b' := b[..|b| - 1];
      assert s[..|s| - 1] == a + b';
      assert s[|s| - 1] == b[|b| - 1];
      DigitsValueAppend(a, b');
      var d := DigitValue(b[|b| - 1]);
      assert DigitsValue(s) == DigitsValue(a + b') * 10 + d;
      ShiftDigit(DigitsValue(a), Pow10(|b'|), DigitsValue(b'), d);
    }
  }

  /** Zeros on the right multiply the value by a power of ten. */
  lemma AppendZerosValue(s: string, k: nat)
    requires AllDigits(s)
    ensures AllDigits(s + Zeros(k))
    ensures DigitsValue(s + Zeros(k)) == DigitsValue(s) * Pow10(k)
  {
    var z := Zeros(k);
    DigitsValueAppend(s, z);
    ZerosValue(k);
    assert |z| == k && DigitsValue(z) == 0;
  }

  lemma {:induction false} Pow10Monotone(a: nat, b: nat)
    requires a <= b
    ensures Pow10(a) <= Pow10(b)
    decreases b
  {
    if a < b {
      Pow10Monotone(a, b - 1);
    }
  }

  /** A shortest digit string denotes at least 10^(length - 1). */
  lemma {:induction false} NatTextLeadingDigit(n: nat)
    requires n >= 1
    ensures Pow10(|NatText(n)| - 1) <= n
    decreases n
  {
    if n >= 10 {
      NatTextLeadingDigit(n / 10);
      var k := |NatText(n / 10)|;
      assert NatText(n) == NatText(n / 10) + [DigitChar(n % 10)];
      assert |NatText(n)| - 1 == k;
      assert Pow10(k) == 10 * Pow10(k - 1);
      assert Pow10(k - 1) <= n / 10;
      assert 10 * (n / 10) <= n;
    }
  }

  /** The shortest digit string of a number between 10^(k-1) and 10^k has
      exactly k digits. */
  lemma NatTextLength(n: nat, k: nat)
    requires 1 <= k && Pow10(k - 1) <= n < Pow10(k)
    ensures |NatText(n)| == k
  {
    var s := NatText(n);
    NatTextValue(n);
    DigitsValueBound(s);
    NatTextLeadingDigit(n);
    if |s| > k {
      Pow10Monotone(k, |s| - 1);
    } else if |s| < k {
      Pow10Monotone(|s|, k - 1);
    }
  }
}
