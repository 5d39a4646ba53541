/** Digit sequences in an arbitrary base, least significant digit first.  Limbs (base 2^32),
    bytes (base 256), Base58 and decimal digits all take their meaning from this module. */
module Positional {

  function Pow(b: nat, k: nat): (p: nat)
    ensures b > 0 ==> p > 0
  {
    if k == 0 then 1 else b * Pow(b, k - 1)
  }

  function Digit(s: seq<nat>, i: nat): nat {
    if i < |s| then s[i] else 0
  }

  /** The number written by the lowest n digits; digits past the end count as zero. */
  function Low(b: nat, s: seq<nat>, n: nat): nat {
    if n == 0 then 0 else Low(b, s, n - 1) + Digit(s, n - 1) * Pow(b, n - 1)
  }

  function Val(b: nat, s: seq<nat>): nat {
    Low(b, s, |s|)
  }

  ghost predicate Digits(b: nat, s: seq<nat>) {
    forall i :: 0 <= i < |s| ==> s[i] < b
  }

  function Zeros(n: nat): (s: seq<nat>)
    ensures |s| == n && forall i :: 0 <= i < n ==> s[i] == 0
  {
    seq(n, _ => 0)
  }

  // ---- powers -------------------------------------------------------------------------------

  lemma Grow(x: nat, m: nat, y: nat)
    requires x <= m
    ensures x * y <= m * y
  {
    assert m * y == x * y + (m - x) * y;
  }

  lemma Swap(b: nat, p: nat, q: nat)
    ensures b * (p * q) == p * (b * q)
  {
  }

  lemma {:induction false} PowAdd(b: nat, i: nat, j: nat)
    ensures Pow(b, i + j) == Pow(b, i) * Pow(b, j)
  {
    if j == 0 {
    } else {
      PowAdd(b, i, j - 1);
      Swap(b, Pow(b, i), Pow(b, j - 1));
    }
  }

  lemma {:induction false} PowPow(b: nat, i: nat, j: nat)
    ensures Pow(Pow(b, i), j) == Pow(b, i * j)
  {
    if j == 0 {
    } else {
      PowPow(b, i, j - 1);
      PowAdd(b, i, i * (j - 1));
      assert i + i * (j - 1) == i * j;
    }
  }

  lemma {:induction false} PowMono(b: nat, i: nat, j: nat)
    requires b > 0 && i <= j
    ensures Pow(b, i) <= Pow(b, j)
  {
    if i < j {
      PowMono(b, i, j - 1);
      assert Pow(b, j - 1) <= b * Pow(b, j - 1);
    }
  }

  lemma Grows(b: nat, p: nat)
    requires b > 1 && p > 0
    ensures p < b * p
  {
    assert b * p == p + (b - 1) * p;
  }

  lemma {:induction false} PowStrict(b: nat, i: nat, j: nat)
    requires b > 1 && i < j
    ensures Pow(b, i) < Pow(b, j)
  {
    PowMono(b, i, j - 1);
    Grows(b, Pow(b, j - 1));
  }

  // ---- values of digit sequences ------------------------------------------------------------

  lemma {:induction false} LowZeros(b: nat, s: seq<nat>, n: nat)
    requires forall i :: 0 <= i < n && i < |s| ==> s[i] == 0
    ensures Low(b, s, n) == 0
  {
    if n > 0 { LowZeros(b, s, n - 1); }
  }

  lemma {:induction false} LowSame(b: nat, s: seq<nat>, t: seq<nat>, n: nat)
    requires forall i: nat :: i < n ==> Digit(s, i) == Digit(t, i)
    ensures Low(b, s, n) == Low(b, t, n)
  {
    if n > 0 { LowSame(b, s, t, n - 1); }
  }

  lemma {:induction false} LowPast(b: nat, s: seq<nat>, n: nat)
    requires |s| <= n
    ensures Low(b, s, n) == Val(b, s)
  {
    if n > |s| { LowPast(b, s, n - 1); }
  }

  /** If every digit from position m on is zero, the value is already there in the lowest m. */
  lemma {:induction false} LowTop(b: nat, s: seq<nat>, m: nat, n: nat)
    requires m <= n
    requires forall i :: m <= i < n && i < |s| ==> s[i] == 0
    ensures Low(b, s, n) == Low(b, s, m)
  {
    if n > m { LowTop(b, s, m, n - 1); }
  }

  lemma {:induction false} LowBound(b: nat, s: seq<nat>, n: nat)
    requires b > 0 && Digits(b, s)
    ensures Low(b, s, n) < Pow(b, n)
  {
    if n > 0 {
      LowBound(b, s, n - 1);
      var p := Pow(b, n - 1);
      assert Digit(s, n - 1) * p <= (b - 1) * p;
      assert (b - 1) * p == b * p - p;
    }
  }

  lemma {:induction false} LowMono(b: nat, s: seq<nat>, m: nat, n: nat)
    requires m <= n
    ensures Low(b, s, m) <= Low(b, s, n)
  {
    if m < n { LowMono(b, s, m, n - 1); }
  }

  lemma {:induction false} LowUpdate(b: nat, s: seq<nat>, k: nat, w: nat, n: nat)
    requires k < |s| && k < n
    ensures Low(b, s[k := w], n) == Low(b, s, n) - s[k] * Pow(b, k) + w * Pow(b, k)
  {
    if k == n - 1 {
      LowSame(b, s[k := w], s, n - 1);
    } else {
      LowUpdate(b, s, k, w, n - 1);
    }
  }

  lemma ValUpdate(b: nat, s: seq<nat>, k: nat, w: nat)
    requires k < |s|
    ensures Val(b, s[k := w]) == Val(b, s) - s[k] * Pow(b, k) + w * Pow(b, k)
  {
    LowUpdate(b, s, k, w, |s|);
  }

  lemma Regroup(p: nat, q: nat, d: nat, l: nat)
    ensures p * l + d * (p * q) == p * (l + d * q)
  {
    assert d * (p * q) == p * (d * q);
    assert p * (l + d * q) == p * l + p * (d * q);
  }

  lemma {:induction false} LowConcat(b: nat, s: seq<nat>, t: seq<nat>, n: nat)
    ensures Low(b, s + t, |s| + n) == Val(b, s) + Pow(b, |s|) * Low(b, t, n)
  {
    if n == 0 {
      LowSame(b, s + t, s, |s|);
    } else {
      LowConcat(b, s, t, n - 1);
      PowAdd(b, |s|, n - 1);
      assert Digit(s + t, |s| + n - 1) == Digit(t, n - 1);
      Regroup(Pow(b, |s|), Pow(b, n - 1), Digit(t, n - 1), Low(b, t, n - 1));
    }
  }

  lemma ValConcat(b: nat, s: seq<nat>, t: seq<nat>)
    ensures Val(b, s + t) == Val(b, s) + Pow(b, |s|) * Val(b, t)
  {
    LowConcat(b, s, t, |t|);
  }

  lemma ValSnoc(b: nat, s: seq<nat>, d: nat)
    ensures Val(b, s + [d]) == Val(b, s) + d * Pow(b, |s|)
  {
    LowSame(b, s + [d], s, |s|);
  }

  lemma ValCons(b: nat, d: nat, s: seq<nat>)
    ensures Val(b, [d] + s) == d + b * Val(b, s)
  {
    ValConcat(b, [d], s);
    assert Val(b, [d]) == Low(b, [d], 0) + d * Pow(b, 0);
    assert Pow(b, 1) == b * Pow(b, 0);
  }

  lemma LowIsPrefix(b: nat, s: seq<nat>, n: nat)
    requires n <= |s|
    ensures Val(b, s[..n]) == Low(b, s, n)
  {
    LowSame(b, s[..n], s, n);
  }

  /** Splitting a number at a digit position. */
  lemma ValSplit(b: nat, s: seq<nat>, n: nat)
    requires n <= |s|
    ensures Val(b, s) == Low(b, s, n) + Pow(b, n) * Val(b, s[n..])
  {
    ValConcat(b, s[..n], s[n..]);
    assert s[..n] + s[n..] == s;
    LowIsPrefix(b, s, n);
  }

  /** A number whose top digit is non-zero is at least that digit's weight. */
  lemma ValLead(b: nat, s: seq<nat>)
    requires b > 0 && |s| > 0 && s[|s| - 1] != 0
    ensures Val(b, s) >= Pow(b, |s| - 1)
  {
    var p := Pow(b, |s| - 1);
    assert s[|s| - 1] * p >= p;
  }

  lemma ValBound(b: nat, s: seq<nat>)
    requires b > 0 && Digits(b, s)
    ensures Val(b, s) < Pow(b, |s|)
  {
    LowBound(b, s, |s|);
  }

  ghost predicate Trimmed(s: seq<nat>) {
    |s| > 0 ==> s[|s| - 1] != 0
  }

  /** Equal-length digit sequences with the same value are the same. */
  lemma {:induction false} SameValueSameDigits(b: nat, s: seq<nat>, t: seq<nat>)
    requires b > 0 && Digits(b, s) && Digits(b, t) && |s| == |t| && Val(b, s) == Val(b, t)
    ensures s == t
  {
    if |s| > 0 {
      var n := |s| - 1;
      var s', t' := s[..n], t[..n];
      LowIsPrefix(b, s, n); LowIsPrefix(b, t, n);
      LowBound(b, s, n); LowBound(b, t, n);
      TopDigit(Pow(b, n), Low(b, s, n), s[n], Low(b, t, n), t[n]);
      SameValueSameDigits(b, s', t');
      assert s == s' + [s[n]] && t == t' + [t[n]];
    }
  }

  lemma TopDigit(p: nat, l: nat, d: nat, m: nat, e: nat)
    requires l < p && m < p && l + d * p == m + e * p
    ensures l == m && d == e
  {
    if d < e {
      OneMore(p, d, e);
    } else if e < d {
      OneMore(p, e, d);
    }
  }

  lemma OneMore(p: nat, d: nat, e: nat)
    requires d < e
    ensures d * p + p <= e * p
  {
    assert e * p == d * p + (e - d) * p;
    assert (e - d) * p == p + (e - d - 1) * p;
  }

  /** Two trimmed sequences with the same value are the same. */
  lemma TrimmedUnique(b: nat, s: seq<nat>, t: seq<nat>)
    requires b > 1 && Digits(b, s) && Digits(b, t) && Trimmed(s) && Trimmed(t)
    requires Val(b, s) == Val(b, t)
    ensures s == t
  {
    if |s| < |t| {
      ShorterIsLess(b, s, t);
    } else if |t| < |s| {
      ShorterIsLess(b, t, s);
    } else {
      SameValueSameDigits(b, s, t);
    }
  }

  lemma ShorterIsLess(b: nat, s: seq<nat>, t: seq<nat>)
    requires b > 0 && Digits(b, s) && Trimmed(t) && |s| < |t|
    ensures Val(b, s) < Val(b, t)
  {
    ValBound(b, s);
    ValLead(b, t);
    PowMono(b, |s|, |t| - 1);
  }

  /** The top differing digit decides a comparison. */
  lemma TopDigitDecides(b: nat, s: seq<nat>, t: seq<nat>, i: nat)
    requires b > 0 && Digits(b, s) && Digits(b, t)
    requires i < |s| == |t| && s[i + 1..] == t[i + 1..] && s[i] < t[i]
    ensures Val(b, s) < Val(b, t)
  {
    ValSplit(b, s, i + 1);
    ValSplit(b, t, i + 1);
    LowBound(b, s, i);
    OneMore(Pow(b, i), s[i], t[i]);
  }

  lemma {:induction false} Pow32()
    ensures Pow(2, 32) == 0x1_0000_0000 && Pow(2, 64) == 0x1_0000_0000_0000_0000
  {
    assert Pow(2, 8) == 256;
    PowAdd(2, 8, 8);
    PowAdd(2, 16, 16);
    PowAdd(2, 32, 32);
  }
}
