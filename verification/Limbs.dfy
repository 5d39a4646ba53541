/** The unsigned layer of the big integer: vectors of 32-bit limbs, least significant first.
    Each method is the loop of the source over its vectors, proved against the number the limbs
    write in base 2^32. */
module Limbs {
  import opened Positional
  import Bits

  type Word = x: nat | x < 0x1_0000_0000

  /** The number a limb vector stands for. */
  function Value(s: seq<Word>): nat {
    Val(0x1_0000_0000, s)
  }

  function Max(a: nat, b: nat): nat {
    if a < b then b else a
  }

  function ZeroLimbs(n: nat): (s: seq<Word>)
    ensures |s| == n && forall i :: 0 <= i < n ==> s[i] == 0
  {
    seq(n, _ => 0)
  }

  function WordAt(s: seq<Word>, i: nat): Word {
    if i < |s| then s[i] else 0
  }

  lemma ValueOne(w: Word)
    ensures Value([w]) == w
  {
    assert Low(0x1_0000_0000, [w], 1) == Low(0x1_0000_0000, [w], 0) + w * Pow(0x1_0000_0000, 0);
  }

  /** Two's-complement truncation of a 64-bit difference to one limb, and the step it justifies. */
  lemma CarryStep(p: nat, lo: int, hi: int, digit: int, carryOut: int, carryIn: int, x: int, y: int)
    requires digit + 0x1_0000_0000 * carryOut == x + y + carryIn
    requires lo + carryIn * p == hi
    ensures lo + digit * p + carryOut * (0x1_0000_0000 * p) == hi + x * p + y * p
  {
    assert (digit + 0x1_0000_0000 * carryOut) * p == (x + y + carryIn) * p;
    assert (x + y + carryIn) * p == x * p + y * p + carryIn * p;
    assert (digit + 0x1_0000_0000 * carryOut) * p == digit * p + carryOut * (0x1_0000_0000 * p);
  }

  method Add(X: seq<Word>, Y: seq<Word>) returns (r: seq<Word>)
    ensures Value(r) == Value(X) + Value(Y)
    ensures |r| == (if X == [] && Y == [] then 0 else Max(|X|, |Y|) + 1)
  {
    var longest := Max(|X|, |Y|);
    if longest == 0 {
      return [];
    }
    r := ZeroLimbs(longest + 1);
    var overflow: nat := 0;
    var i := 0;
    while i < longest
      invariant 0 <= i <= longest && |r| == longest + 1 && overflow <= 1
      invariant Low(0x1_0000_0000, r, i) + overflow * Pow(0x1_0000_0000, i)
             == Low(0x1_0000_0000, X, i) + Low(0x1_0000_0000, Y, i)
    {
      var x := WordAt(X, i);
      var y := WordAt(Y, i);
      var sum := overflow + x + y;
      ghost var before := r;
      r := r[i := sum % 0x1_0000_0000];
      LowSame(0x1_0000_0000, r, before, i);
      CarryStep(Pow(0x1_0000_0000, i), Low(0x1_0000_0000, before, i),
                Low(0x1_0000_0000, X, i) + Low(0x1_0000_0000, Y, i),
                sum % 0x1_0000_0000, sum / 0x1_0000_0000, overflow, x, y);
      overflow := sum / 0x1_0000_0000;
      i := i + 1;
    }
    LowPast(0x1_0000_0000, X, longest);
    LowPast(0x1_0000_0000, Y, longest);
    ghost var before := r;
    r := r[longest := overflow];
    LowSame(0x1_0000_0000, r, before, longest);
  }

  /** Borrow subtraction.  Callers order the operands; on X < Y the borrow runs off the top. */
  method Subtract(X: seq<Word>, Y: seq<Word>) returns (r: seq<Word>)
    ensures |r| == Max(|X|, |Y|)
    ensures Value(r) == Value(X) - Value(Y)
                        + (if Value(X) < Value(Y) then Pow(0x1_0000_0000, |r|) else 0)
  {
    var longest := Max(|X|, |Y|);
    if longest == 0 {
      return [];
    }
    r := ZeroLimbs(longest);
    var carry: nat := 0;
    var i := 0;
    while i < longest
      invariant 0 <= i <= longest && |r| == longest && carry <= 1
      invariant Low(0x1_0000_0000, r, i)
             == Low(0x1_0000_0000, X, i) - Low(0x1_0000_0000, Y, i) + carry * Pow(0x1_0000_0000, i)
    {
      var x := WordAt(X, i);
      var y := WordAt(Y, i);
      var tmpSub: int := x - y - carry;
      ghost var before := r;
      r := r[i := tmpSub % 0x1_0000_0000];
      LowSame(0x1_0000_0000, r, before, i);
      BorrowStep(Pow(0x1_0000_0000, i), r[i], x, y, carry, if tmpSub >= 0 then 0 else 1);
      carry := if tmpSub >= 0 then 0 else 1;
      i := i + 1;
    }
    LowPast(0x1_0000_0000, X, longest);
    LowPast(0x1_0000_0000, Y, longest);
    BorrowDecides(r, Value(X), Value(Y), carry);
  }

  lemma BorrowStep(p: nat, digit: nat, x: nat, y: nat, borrow: nat, next: nat)
    requires borrow <= 1 && next <= 1
    requires digit == x - y - borrow + 0x1_0000_0000 * next
    ensures digit * p == x * p - y * p - borrow * p + next * (0x1_0000_0000 * p)
  {
    assert (digit + y + borrow) * p == (x + 0x1_0000_0000 * next) * p;
    assert (digit + y + borrow) * p == digit * p + y * p + borrow * p;
    assert (x + 0x1_0000_0000 * next) * p == x * p + next * (0x1_0000_0000 * p);
  }

  lemma BorrowDecides(r: seq<Word>, x: nat, y: nat, carry: nat)
    requires carry <= 1
    requires Value(r) == x - y + carry * Pow(0x1_0000_0000, |r|)
    ensures Value(r) == x - y + (if x < y then Pow(0x1_0000_0000, |r|) else 0)
  {
    ValBound(0x1_0000_0000, r);
  }

  /** The accumulator of the inner product loop never wraps, so its halves add up to it. */
  lemma ProductFits(x: Word, y: Word, o: Word, c: Word)
    ensures x * y + o + c < 0x1_0000_0000_0000_0000
  {
    Grow(x, 0xFFFF_FFFF, y);
  }

  lemma Halves(v: nat)
    requires v < 0x1_0000_0000_0000_0000
    ensures var tmp := v % 0x1_0000_0000_0000_0000;
      tmp % 0x1_0000_0000 + 0x1_0000_0000 * (tmp / 0x1_0000_0000) == v && tmp / 0x1_0000_0000 < 0x1_0000_0000
  {
  }

  lemma ProductStep(total: int, start: int, x: nat, y: nat, yl: nat, p: nat, pj: nat, pk: nat,
                    o: nat, d: nat, c: nat, c': nat)
    requires pk == p * pj
    requires d + 0x1_0000_0000 * c' == x * y + o + c
    requires total + c * pk == start + x * (yl * p)
    ensures total - o * pk + d * pk + c' * (0x1_0000_0000 * pk) == start + x * ((yl + y * pj) * p)
  {
    assert (d + 0x1_0000_0000 * c') * pk == (x * y + o + c) * pk;
    assert (d + 0x1_0000_0000 * c') * pk == d * pk + c' * (0x1_0000_0000 * pk);
    assert (x * y + o + c) * pk == (x * y) * pk + o * pk + c * pk;
    assert (x * y) * (p * pj) == x * ((y * pj) * p);
    assert x * ((yl + y * pj) * p) == x * (yl * p) + x * ((y * pj) * p);
  }

  /** Schoolbook multiplication.  The 64-bit accumulator is written out modulo 2^64. */
  method Multiply(X: seq<Word>, Y: seq<Word>) returns (output: seq<Word>)
    ensures Value(output) == Value(X) * Value(Y)
    ensures |output| == (if X == [] || Y == [] then 0 else |X| + |Y| + 1)
  {
    if |X| == 0 || |Y| == 0 {
      return [];
    }
    output := ZeroLimbs(|X| + |Y| + 1);
    LowZeros(0x1_0000_0000, output, |output|);
    var i := 0;
    while i < |X|
      invariant 0 <= i <= |X| && |output| == |X| + |Y| + 1
      invariant forall k :: i + |Y| <= k < |output| ==> output[k] == 0
      invariant Value(output) == Low(0x1_0000_0000, X, i) * Value(Y)
    {
      ghost var p := Pow(0x1_0000_0000, i);
      if X[i] != 0 {
        output := MultiplyRow(output, X[i], Y, i);
      }
      RowDone(Low(0x1_0000_0000, X, i), X[i], p, Value(Y));
      i := i + 1;
    }
  }

  lemma RowDone(l: nat, x: nat, p: nat, y: nat)
    ensures (l + x * p) * y == l * y + x * (y * p)
  {
    assert (l + x * p) * y == l * y + (x * p) * y;
    assert (x * p) * y == x * (y * p);
  }

  /** One row of the schoolbook product: adds x * Y, shifted by i limbs. */
  method MultiplyRow(start: seq<Word>, x: Word, Y: seq<Word>, i: nat) returns (output: seq<Word>)
    requires |start| > i + |Y| && start[i + |Y|] == 0
    ensures |output| == |start|
    ensures Value(output) == Value(start) + x * (Value(Y) * Pow(0x1_0000_0000, i))
    ensures forall k :: i + |Y| < k < |start| ==> output[k] == start[k]
  {
    output := start;
    var carry: Word := 0;
    var k := i;
    var j := 0;
    ghost var p := Pow(0x1_0000_0000, i);
    while j < |Y|
      invariant 0 <= j <= |Y| && k == i + j && |output| == |start|
      invariant forall n :: i + j <= n < |start| ==> output[n] == start[n]
      invariant Value(output) + carry * Pow(0x1_0000_0000, i + j)
             == Value(start) + x * (Low(0x1_0000_0000, Y, j) * p)
    {
      ProductFits(x, Y[j], output[k], carry);
      Halves(x * Y[j] + output[k] + carry);
      var tmp := (x * Y[j] + output[k] + carry) % 0x1_0000_0000_0000_0000;
      PowAdd(0x1_0000_0000, i, j);
      ValUpdate(0x1_0000_0000, output, k, tmp % 0x1_0000_0000);
      ProductStep(Value(output), Value(start), x, Y[j], Low(0x1_0000_0000, Y, j), p,
                  Pow(0x1_0000_0000, j), Pow(0x1_0000_0000, k),
                  output[k], tmp % 0x1_0000_0000, carry, tmp / 0x1_0000_0000);
      output := output[k := tmp % 0x1_0000_0000];
      carry := tmp / 0x1_0000_0000;
      k := k + 1;
      j := j + 1;
    }
    ValUpdate(0x1_0000_0000, output, i + |Y|, carry);
    output := output[i + |Y| := carry];
  }
}
