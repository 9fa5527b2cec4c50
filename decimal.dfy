/** Decimal strings of non-negative integers, as JavaScript's `n + ''` writes
    them, and `String.prototype.slice` with a negative start. Used for the
    workout id (a suffix of the clock's decimal string) and for the day of the
    month in the description. */
module Decimal {

  predicate IsDigit(c: char) {
    '0' <= c <= '9'
  }

  predicate IsDigits(s: string) {
    forall i :: 0 <= i < |s| ==> IsDigit(s[i])
  }

  function DigitChar(d: nat): (c: char)
    requires d < 10
    ensures IsDigit(c) && c as int - '0' as int == d
  {
    ('0' as int + d) as char
  }

  function DigitValue(c: char): (d: nat)
    requires IsDigit(c)
    ensures d < 10 && DigitChar(d) == c
  {
    c as int - '0' as int
  }

  function Pow10(k: nat): (p: nat)
    ensures p >= 1
  {
    if k == 0 then 1 else 10 * Pow10(k - 1)
  }

  /** `n + ''`: the shortest decimal representation of n. */
  function NatToString(n: nat): (r: string)
    ensures |r| >= 1 && IsDigits(r)
    ensures r[0] == '0' ==> n == 0
  {
    if n < 10 then [DigitChar(n)]
    else
      var t := NatToString(n / 10);
      assert (t + [DigitChar(n % 10)])[0] == t[0];
      t + [DigitChar(n % 10)]
  }

  /** The number a string of digits denotes (leading zeros allowed). */
  function DecValue(s: string): nat
    requires IsDigits(s)
  {
    if s == [] then 0 else DecValue(s[..|s| - 1]) * 10 + DigitValue(s[|s| - 1])
  }

  /** `s.slice(start)`: a suffix of s. A negative start keeps the last -start
      characters (all of s when it is shorter), a non-negative one drops the
      first start characters (all of them when s is shorter). */
  function Slice(s: string, start: int): (r: string)
    ensures start < 0 ==> |r| == if -start < |s| then -start else |s|
    ensures 0 <= start ==> |r| == if start <= |s| then |s| - start else 0
    ensures r == s[|s| - |r|..]
  {
    var from := if start < 0 then (if |s| + start < 0 then 0 else |s| + start)
                else if start <= |s| then start else |s|;
    s[from..]
  }

  /** Division with remainder is unique. */
  lemma ModUnique(x: int, m: int, q: int, r: int)
    requires m > 0 && 0 <= r < m && x == q * m + r
    ensures x % m == r && x / m == q
  {
    var q', r' := x / m, x % m;
    assert (q - q') * m == r' - r;
    if q > q' {
      assert (q - q') * m >= m by { MulAtLeast(q - q', m); }
    } else if q < q' {
      assert (q' - q) * m >= m by { MulAtLeast(q' - q, m); }
    }
  }

  /** Adding the modulus leaves the remainder unchanged. */
  lemma ModAddPeriod(x: nat, p: nat)
    requires p > 0
    ensures (x + p) % p == x % p
  {
    ModUnique(x + p, p, x / p + 1, x % p);
  }

  lemma MulAtLeast(a: int, m: int)
    requires a >= 1 && m > 0
    ensures a * m >= m
  {
  }

  /** Appending a digit multiplies the part below 10^k by ten. */
  lemma ModShift(a: nat, p: nat, d: nat)
    requires p >= 1 && d < 10
    ensures (a % p) * 10 + d == (a * 10 + d) % (10 * p)
  {
    var q, r := a / p, a % p;
    assert a == q * p + r;
    assert a * 10 + d == q * (10 * p) + (r * 10 + d);
    ModUnique(a * 10 + d, 10 * p, q, r * 10 + d);
  }

  /** The decimal string of n consists of digits and denotes n. */
  lemma {:induction false} NatToStringValue(n: nat)
    ensures IsDigits(NatToString(n))
    ensures DecValue(NatToString(n)) == n
  {
    if n >= 10 {
      NatToStringValue(n / 10);
      var s := NatToString(n);
      assert s[..|s| - 1] == NatToString(n / 10);
    }
  }

  /** Different numbers have different decimal strings. */
  lemma NatToStringInjective(m: nat, n: nat)
    requires NatToString(m) == NatToString(n)
    ensures m == n
  {
    NatToStringValue(m);
    NatToStringValue(n);
  }

  /** For k >= 1, the decimal string of n is longer than k exactly when n >= 10^k. */
  lemma {:induction false} NatToStringLength(n: nat, k: nat)
    requires k >= 1
    ensures |NatToString(n)| > k <==> n >= Pow10(k)
  {
    if n >= 10 {
      if k > 1 {
        NatToStringLength(n / 10, k - 1);
      }
    } else {
      Pow10AtLeastTen(k);
    }
  }

  lemma {:induction false} Pow10AtLeastTen(k: nat)
    requires k >= 1
    ensures Pow10(k) >= 10
  {
    if k > 1 {
      Pow10AtLeastTen(k - 1);
    }
  }

  /** The last k digits of a digit string denote its value modulo 10^k. */
  lemma {:induction false} SuffixValue(s: string, k: nat)
    requires IsDigits(s) && k <= |s|
    ensures IsDigits(s[|s| - k..])
    ensures DecValue(s[|s| - k..]) == DecValue(s) % Pow10(k)
  {
    var t := s[|s| - k..];
    if k == 0 {
      assert t == [];
    } else {
      var init := s[..|s| - 1];
      SuffixValue(init, k - 1);
      assert t[..|t| - 1] == init[|init| - (k - 1)..];
      assert t[|t| - 1] == s[|s| - 1];
      ModShift(DecValue(init), Pow10(k - 1), DigitValue(s[|s| - 1]));
    }
  }

  /** Two digit strings of the same length that denote the same number are equal. */
  lemma {:induction false} DigitsInjective(s: string, t: string)
    requires IsDigits(s) && IsDigits(t) && |s| == |t|
    requires DecValue(s) == DecValue(t)
    ensures s == t
  {
    if s != [] {
      var n := |s|;
      DigitsInjective(s[..n - 1], t[..n - 1]);
      assert DigitChar(DigitValue(s[n - 1])) == DigitChar(DigitValue(t[n - 1]));
      assert s == s[..n - 1] + [s[n - 1]] && t == t[..n - 1] + [t[n - 1]];
    }
  }
}
