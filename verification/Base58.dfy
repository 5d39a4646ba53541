/** Base58 text: radix conversion through the big integer, one leading '1' per leading zero byte. */
module Base58 {
  import opened Positional
  import opened BigIntegers
  import opened SignedBytes
  import Division
  import Limbs
  import SignedCodec
  import Bits

  // ---- the alphabet -------------------------------------------------------------------------

  /** Position i of "123456789ABCDEFGHJKLMNPQRSTUVWXYZabcdefghijkmnopqrstuvwxyz": the digits and
      letters without 0, I, O and l. */
  function Glyph(i: nat): char
    requires i < 58
  {
    if i < 9 then '1' + (i as char)
    else if i < 17 then 'A' + ((i - 9) as char)
    else if i < 22 then 'J' + ((i - 17) as char)
    else if i < 33 then 'P' + ((i - 22) as char)
    else if i < 44 then 'a' + ((i - 33) as char)
    else 'm' + ((i - 44) as char)
  }

  predicate InAlphabet(c: char) {
    exists i: nat :: i < 58 && Glyph(i) == c
  }

  /** The alphabet in order: the digits and the capitals. */
  lemma GlyphsAre()
    ensures [Glyph(0), Glyph(1), Glyph(2), Glyph(3), Glyph(4), Glyph(5), Glyph(6), Glyph(7), Glyph(8)] == "123456789"
    ensures [Glyph(9), Glyph(10), Glyph(11), Glyph(12), Glyph(13), Glyph(14), Glyph(15), Glyph(16)] == "ABCDEFGH"
    ensures [Glyph(17), Glyph(18), Glyph(19), Glyph(20), Glyph(21)] == "JKLMN"
    ensures [Glyph(22), Glyph(23), Glyph(24), Glyph(25), Glyph(26), Glyph(27), Glyph(28), Glyph(29), Glyph(30), Glyph(31), Glyph(32)] == "PQRSTUVWXYZ"
  {
  }

  /** And the small letters. */
  lemma SmallGlyphsAre()
    ensures [Glyph(33), Glyph(34), Glyph(35), Glyph(36), Glyph(37), Glyph(38), Glyph(39), Glyph(40), Glyph(41), Glyph(42), Glyph(43)] == "abcdefghijk"
    ensures [Glyph(44), Glyph(45), Glyph(46), Glyph(47), Glyph(48), Glyph(49), Glyph(50), Glyph(51), Glyph(52), Glyph(53), Glyph(54), Glyph(55), Glyph(56), Glyph(57)] == "mnopqrstuvwxyz"
  {
  }

  /** No glyph appears twice. */
  lemma GlyphInjective(i: nat, j: nat)
    requires i < 58 && j < 58 && Glyph(i) == Glyph(j)
    ensures i == j
  {
  }

  /** AlphabetIndexOf: the position of a character, or -1. */
  method AlphabetIndexOf(c: char) returns (index: int)
    ensures -1 <= index < 58
    ensures index >= 0 ==> Glyph(index) == c
    ensures index < 0 <==> !InAlphabet(c)
  {
    index := 0;
    while index < 58
      invariant 0 <= index <= 58
      invariant forall k: nat :: k < index ==> Glyph(k) != c
    {
      if Glyph(index) == c {
        return;
      }
      index := index + 1;
    }
    index := -1;
  }

  // ---- radix conversion ---------------------------------------------------------------------

  /** Digits of n, least significant first, without leading zeros. */
  function ToDigits(b: nat, n: nat): (s: seq<nat>)
    requires b > 1
    ensures Digits(b, s) && Trimmed(s)
    decreases n
  {
    if n == 0 then [] else DigitStep(b, n); [n % b] + ToDigits(b, n / b)
  }

  lemma DigitStep(b: nat, n: nat)
    requires b > 1 && n > 0
    ensures 0 <= n / b < n && 0 <= n % b < b && n == n % b + b * (n / b)
    ensures n / b == 0 ==> n % b != 0
  {
    var q := n / b;
    assert n == b * q + n % b;
    if q > 0 {
      Grow(2, b, q);
    }
  }

  lemma {:induction false} DigitsValue(b: nat, n: nat)
    requires b > 1
    ensures Val(b, ToDigits(b, n)) == n
    decreases n
  {
    if n > 0 {
      DigitStep(b, n);
      DigitsValue(b, n / b);
      ValCons(b, n % b, ToDigits(b, n / b));
    }
  }

  lemma DigitsOfValue(b: nat, s: seq<nat>)
    requires b > 1 && Digits(b, s) && Trimmed(s)
    ensures ToDigits(b, Val(b, s)) == s
  {
    DigitsValue(b, Val(b, s));
    TrimmedUnique(b, ToDigits(b, Val(b, s)), s);
  }

  /** Zero digits at the significant end. */
  function TrailingZeros(s: seq<nat>): (n: nat)
    ensures n <= |s|
  {
    if |s| > 0 && s[|s| - 1] == 0 then TrailingZeros(s[..|s| - 1]) + 1 else 0
  }

  /** Base58's conversion in either direction: re-write the number, keep the zero digits. */
  function Convert(from: nat, to: nat, s: seq<nat>): seq<nat>
    requires to > 1
  {
    ToDigits(to, Val(from, s)) + Zeros(TrailingZeros(s))
  }

  lemma {:induction false} TrailingOf(t: seq<nat>, k: nat)
    requires Trimmed(t)
    ensures TrailingZeros(t + Zeros(k)) == k
  {
    if k == 0 {
      assert t + Zeros(0) == t;
    } else {
      TrailingOf(t, k - 1);
      assert (t + Zeros(k))[..|t| + k - 1] == t + Zeros(k - 1);
    }
  }

  lemma {:induction false} SplitTrailing(s: seq<nat>)
    ensures Trimmed(s[..|s| - TrailingZeros(s)])
    ensures s == s[..|s| - TrailingZeros(s)] + Zeros(TrailingZeros(s))
  {
    if |s| > 0 && s[|s| - 1] == 0 {
      var s' := s[..|s| - 1];
      SplitTrailing(s');
      assert s'[..|s'| - TrailingZeros(s')] == s[..|s| - TrailingZeros(s)];
      assert s == s' + [0];
    }
  }

  lemma ValZeros(b: nat, t: seq<nat>, k: nat)
    ensures Val(b, t + Zeros(k)) == Val(b, t)
  {
    ValConcat(b, t, Zeros(k));
    LowZeros(b, Zeros(k), k);
  }

  /** Converting there and back gives the digits again, zeros included. */
  lemma ConvertBack(from: nat, to: nat, s: seq<nat>)
    requires from > 1 && to > 1 && Digits(from, s)
    ensures Convert(to, from, Convert(from, to, s)) == s
  {
    var k := TrailingZeros(s);
    var t := s[..|s| - k];
    SplitTrailing(s);
    ValZeros(from, t, k);
    var d := ToDigits(to, Val(from, s));
    TrailingOf(d, k);
    ValZeros(to, d, k);
    DigitsValue(to, Val(from, s));
    DigitsOfValue(from, t);
  }

  // ---- the two functions on whole strings ---------------------------------------------------

  function Mirror<T>(s: seq<T>): (r: seq<T>)
    ensures |r| == |s| && forall i :: 0 <= i < |s| ==> r[i] == s[|s| - 1 - i]
  {
    seq(|s|, i requires 0 <= i < |s| => s[|s| - 1 - i])
  }

  function Glyphs(d: seq<nat>): (s: string)
    requires Digits(58, d)
    ensures |s| == |d| && forall i :: 0 <= i < |d| ==> s[i] == Glyph(d[i])
  {
    seq(|d|, i requires 0 <= i < |d| => Glyph(d[i]))
  }

  /** The bytes' digits in base 58, least significant first.  An all-zero input gets one digit of
      its own for the number zero, besides one per zero byte. */
  function EncodedDigits(input: seq<Byte>): (d: seq<nat>)
    ensures Digits(58, d)
  {
    var r := Mirror<nat>(input);
    (if Val(256, r) == 0 && input != [] then [0] else []) + Convert(256, 58, r)
  }

  function Encoded(input: seq<Byte>): string {
    Mirror<char>(Glyphs(EncodedDigits(input)))
  }

  /** The digits of a text over the alphabet, least significant first. */
  ghost predicate Spells(s: string, d: seq<nat>) {
    Digits(58, d) && s == Mirror<char>(Glyphs(d))
  }

  ghost predicate Alphabetic(s: string) {
    forall i :: 0 <= i < |s| ==> InAlphabet(s[i])
  }

  /** The position of a character in the alphabet. */
  ghost function Place(c: char): (i: nat)
    requires InAlphabet(c)
    ensures i < 58 && Glyph(i) == c
  {
    hide Glyph;
    var i: nat :| i < 58 && Glyph(i) == c;
    i
  }

  /** The digits of a text, least significant first. */
  ghost function Places(s: string): (d: seq<nat>)
    requires Alphabetic(s)
    ensures |d| == |s| && Digits(58, d) && forall k :: 0 <= k < |d| ==> Glyph(d[k]) == s[|s| - 1 - k]
  {
    hide Glyph, InAlphabet;
    seq(|s|, k requires 0 <= k < |s| => Place(s[|s| - 1 - k]))
  }

  lemma AlphabeticSpells(s: string)
    requires Alphabetic(s)
    ensures Spells(s, Places(s))
  {
    hide Glyph;
  }

  lemma SpelledIsAlphabetic(s: string, d: seq<nat>)
    requires Spells(s, d)
    ensures Alphabetic(s)
  {
    hide Glyph;
    forall i | 0 <= i < |s| ensures InAlphabet(s[i]) {
      assert s[i] == Glyph(d[|d| - 1 - i]);
    }
  }

  /** A text spells one digit sequence. */
  lemma SpellsUnique(s: string, d: seq<nat>, e: seq<nat>)
    requires Spells(s, d) && Spells(s, e)
    ensures d == e
  {
    hide Glyph;
    forall k | 0 <= k < |d|
      ensures d[k] == e[k]
    {
      assert s[|s| - 1 - k] == Glyph(d[k]) == Glyph(e[k]);
      GlyphInjective(d[k], e[k]);
    }
  }

  /** What decoding a text over the alphabet gives. */
  ghost function DecodedText(s: string): seq<nat>
    requires Alphabetic(s)
  {
    Decoded(Places(s))
  }

  function Decoded(d: seq<nat>): (b: seq<nat>)
    ensures Digits(256, b)
  {
    Mirror<nat>(Convert(58, 256, d))
  }

  lemma ReverseTwice(s: seq<nat>)
    ensures Mirror<nat>(Mirror<nat>(s)) == s
  {
  }

  lemma ConvertZeros(from: nat, to: nat, n: nat)
    requires from > 1 && to > 1
    ensures Convert(from, to, Zeros(n)) == Zeros(n)
  {
    assert [] + Zeros(n) == Zeros(n);
    TrailingOf([], n);
    LowZeros(from, Zeros(n), n);
  }

  lemma ZeroValueZeros(b: nat, d: seq<nat>)
    requires b > 1 && Digits(b, d) && Val(b, d) == 0
    ensures d == Zeros(|d|)
  {
    SplitTrailing(d);
    var k := TrailingZeros(d);
    ValZeros(b, d[..|d| - k], k);
    DigitsOfValue(b, d[..|d| - k]);
  }

  lemma ReverseZeros(s: seq<nat>, n: nat)
    requires Mirror<nat>(s) == Zeros(n)
    ensures s == Zeros(n)
  {
    ReverseTwice(s);
    assert Mirror<nat>(Zeros(n)) == Zeros(n);
  }

  lemma AllZeroBytes(input: seq<Byte>)
    requires Val(256, Mirror<nat>(input)) == 0 && input != []
    ensures input == Zeros(|input|)
    ensures EncodedDigits(input) == Zeros(|input| + 1) && Decoded(EncodedDigits(input)) == Zeros(|input| + 1)
  {
    hide Convert, Low;
    var n := |input|;
    ZeroValueZeros(256, Mirror<nat>(input));
    ReverseZeros(input, n);
    ConvertZeros(256, 58, n);
    assert [0] + Zeros(n) == Zeros(n + 1);
    ConvertZeros(58, 256, n + 1);
    assert Mirror<nat>(Zeros(n + 1)) == Zeros(n + 1);
  }

  /** Decoding undoes encoding exactly for inputs that are empty or hold a non-zero byte; an
      all-zero input comes back one zero byte longer. */
  lemma BytesRoundTrip(input: seq<Byte>)
    ensures Alphabetic(Encoded(input))
    ensures DecodedText(Encoded(input)) == input <==> input == [] || exists i :: 0 <= i < |input| && input[i] != 0
    ensures input != [] && input == Zeros(|input|) ==> DecodedText(Encoded(input)) == Zeros(|input| + 1)
  {
    hide EncodedDigits, Decoded, Glyph;
    var d := EncodedDigits(input);
    SpelledIsAlphabetic(Encoded(input), d);
    AlphabeticSpells(Encoded(input));
    SpellsUnique(Encoded(input), d, Places(Encoded(input)));
    DigitsRoundTrip(input);
  }

  lemma DigitsRoundTrip(input: seq<Byte>)
    ensures Decoded(EncodedDigits(input)) == input <==> input == [] || exists i :: 0 <= i < |input| && input[i] != 0
    ensures input != [] && input == Zeros(|input|) ==> Decoded(EncodedDigits(input)) == Zeros(|input| + 1)
  {
    var r := Mirror<nat>(input);
    if Val(256, r) == 0 && input != [] {
      AllZeroBytes(input);
    } else {
      ReverseTwice(input);
      ConvertBack(256, 58, r);
      assert [] + Convert(256, 58, r) == Convert(256, 58, r);
      if input != [] { NonZeroDigit(256, input); }
    }
  }

  lemma NonZeroDigit(b: nat, input: seq<nat>)
    requires Val(b, Mirror<nat>(input)) != 0
    ensures exists i :: 0 <= i < |input| && input[i] != 0
  {
    if forall i :: 0 <= i < |input| ==> input[i] == 0 {
      LowZeros(b, Mirror<nat>(input), |input|);
    }
  }

  lemma AllOnesText(d: seq<nat>)
    requires Digits(58, d) && Val(58, d) == 0 && d != []
    ensures d == Zeros(|d|) && EncodedDigits(Decoded(d)) == Zeros(|d| + 1)
  {
    hide Convert, Low;
    var n := |d|;
    ZeroValueZeros(58, d);
    ConvertZeros(58, 256, n);
    assert Mirror<nat>(Zeros(n)) == Zeros(n);
    ConvertZeros(256, 58, n);
    LowZeros(256, Zeros(n), n);
    assert [0] + Zeros(n) == Zeros(n + 1);
  }

  lemma OtherText(d: seq<nat>)
    requires Digits(58, d) && (Val(58, d) != 0 || d == [])
    ensures EncodedDigits(Decoded(d)) == d
  {
    var c := Convert(58, 256, d);
    ReverseTwice(c);
    ConvertBack(58, 256, d);
    DigitsValue(256, Val(58, d));
    ValZeros(256, ToDigits(256, Val(58, d)), TrailingZeros(d));
    assert [] + d == d;
    if d == [] { ConvertZeros(58, 256, 0); }
  }

  /** Encoding undoes decoding exactly for texts over the alphabet that are empty or hold a character
      other than '1'; a text of ones comes back one '1' longer. */
  lemma TextRoundTrip(s: string)
    requires Alphabetic(s)
    ensures Encoded(DecodedText(s)) == s <==> s == [] || exists i :: 0 <= i < |s| && s[i] != Glyph(0)
    ensures s != [] && (forall i :: 0 <= i < |s| ==> s[i] == Glyph(0)) ==> Encoded(DecodedText(s)) == s + [Glyph(0)]
  {
    hide EncodedDigits, Decoded, Glyph;
    var d := Places(s);
    AlphabeticSpells(s);
    DigitsBack(d);
    OnesAreZeros(s, d);
    if s != [] && d == Zeros(|d|) {
      assert Glyphs(Zeros(|d| + 1)) == Glyphs(d) + [Glyph(0)];
      assert Mirror<char>(Glyphs(Zeros(|d| + 1))) == s + [Glyph(0)];
    }
  }

  lemma DigitsBack(d: seq<nat>)
    requires Digits(58, d)
    ensures EncodedDigits(Decoded(d)) == d <==> d == [] || exists i :: 0 <= i < |d| && d[i] != 0
    ensures d != [] && d == Zeros(|d|) ==> EncodedDigits(Decoded(d)) == Zeros(|d| + 1)
  {
    if Val(58, d) == 0 && d != [] {
      AllOnesText(d);
    } else {
      OtherText(d);
      if d != [] { SomeDigit(58, d); }
    }
  }

  /** A text is all ones exactly when its digits are all zero. */
  lemma OnesAreZeros(s: string, d: seq<nat>)
    requires Spells(s, d)
    ensures d == Zeros(|d|) <==> forall i :: 0 <= i < |s| ==> s[i] == Glyph(0)
    ensures (exists i :: 0 <= i < |d| && d[i] != 0) <==> exists i :: 0 <= i < |s| && s[i] != Glyph(0)
  {
    hide Glyph;
    forall k | 0 <= k < |d| ensures d[k] == 0 <==> s[|s| - 1 - k] == Glyph(0) {
      if s[|s| - 1 - k] == Glyph(0) { GlyphInjective(d[k], 0); }
    }
    forall i | 0 <= i < |s| ensures s[i] == Glyph(0) <==> d[|d| - 1 - i] == 0 {
      assert s[|s| - 1 - (|d| - 1 - i)] == s[i];
    }
  }

  lemma SomeDigit(b: nat, d: seq<nat>)
    requires Val(b, d) != 0
    ensures exists i :: 0 <= i < |d| && d[i] != 0
  {
    if forall i :: 0 <= i < |d| ==> d[i] == 0 {
      LowZeros(b, d, |d|);
    }
  }

  // ---- the loops ----------------------------------------------------------------------------

  lemma DigitsAppend(n: nat, sb: seq<nat>, v: nat)
    requires Digits(58, sb) && v < 58 && (v != 0 || (n == 0 && sb == []))
    requires n == Val(58, sb) + v * Pow(58, |sb|)
    ensures sb + [v] == (if n == 0 then [0] else ToDigits(58, n))
  {
    ValSnoc(58, sb, v);
    if v != 0 {
      DigitsOfValue(58, sb + [v]);
      ValLead(58, sb + [v]);
    }
  }

  lemma RadixStep(n: nat, low: nat, v: nat, p: nat)
    requires n == low + v * p
    ensures v == (v / 58) * 58 + v % 58
    ensures n == low + (v % 58) * p + (v / 58) * (58 * p)
  {
    assert ((v / 58) * 58 + v % 58) * p == (v / 58) * (58 * p) + (v % 58) * p;
  }

  /** The repeated division that produces the characters. */
  method DigitLoop(start: BigInteger) returns (sb: string, ghost d: seq<nat>)
    requires start.Canonical() && start.Value() >= 0
    ensures Digits(58, d) && sb == Glyphs(d)
    ensures d == (if start.Value() == 0 then [0] else ToDigits(58, start.Value()))
  {
    hide Limbs.Value, Pow, Division.TruncDiv, Division.TruncMod, Division.DivisionHolds, ToDigits, Glyph, Val;
    ValNothing();
    var radix := new BigInteger.FromInt64(58);
    var value := start;
    sb := [];
    d := [];
    ghost var n := start.Value();
    assert Pow(58, 0) == 1 by { PowNought(); }
    var large := value.GreaterOrEqual(radix);
    while large
      invariant start.Canonical() && start.Value() == n && radix.Canonical() && radix.Value() == 58
      invariant value.Canonical() && value.Value() >= 0 && Digits(58, d) && sb == Glyphs(d)
      invariant n == Val(58, d) + value.Value() * Pow(58, |d|)
      invariant large <==> value.Value() >= 58
      invariant value.Value() > 0 || (n == 0 && d == [])
      decreases value.Value()
    {
      ghost var v := value.Value();
      Division.SignedResults(v, 58);
      RadixStep(n, Val(58, d), v, Pow(58, |d|));
      PowNext(|d|);
      var ok, mod := Division.Remainder(value, radix);
      ValSnoc(58, d, v % 58);
      sb := sb + [Glyph(SmallInt(mod))];
      d := d + [v % 58];
      ok, value := Division.Quotient(value, radix);
      large := value.GreaterOrEqual(radix);
    }
    DigitsAppend(n, d, value.Value());
    sb := sb + [Glyph(SmallInt(value))];
    d := d + [value.Value()];
  }

  lemma PowNought()
    ensures Pow(58, 0) == 1
  {
  }

  lemma PowNext(k: nat)
    ensures Pow(58, k + 1) == 58 * Pow(58, k)
  {
  }

  /** The checked cast of a number below 58 to int. */
  function SmallInt(x: BigInteger): nat
    requires x.Canonical() && 0 <= x.Value() < 58
    reads x
    ensures SmallInt(x) == x.Value()
  {
    Division.CanonicalLimbs(x.data);
    x.data[0]
  }

  /** Encode: the digits of the number, then one '1' per leading zero byte, turned around. */
  method Encode(input: seq<Byte>) returns (text: string)
    ensures text == Encoded(input)
  {
    hide Glyph, ToDigits, TrailingZeros, Convert, EncodedDigits, TwosComplement, Pow;
    if |input| == 0 {
      EncodedEmpty();
      return "";
    }
    var temp: seq<Byte> := Mirror<nat>(input);
    SignedCodec.SignExtension(temp, 0);
    temp := temp + [0];
    var value := SignedCodec.FromSignedBytes(temp);
    var sb;
    ghost var first;
    sb, first := DigitLoop(value);
    var i := 0;
    ghost var d := first;
    while i < |input| && input[i] == 0
      invariant 0 <= i <= |input| && forall k :: 0 <= k < i ==> input[k] == 0
      invariant d == first + Zeros(i) && sb == Glyphs(d)
    {
      sb := sb + [Glyph(0)];
      d := d + [0];
      i := i + 1;
    }
    CountZeros(Mirror<nat>(input), i);
    EncodedIs(input, first, d, i);
    EncodedText(input);
    text := Mirror<char>(sb);
  }

  lemma EncodedText(input: seq<Byte>)
    ensures Digits(58, EncodedDigits(input)) && Encoded(input) == Mirror<char>(Glyphs(EncodedDigits(input)))
  {
  }

  lemma EncodedEmpty()
    ensures Encoded([]) == "" && Decoded([]) == []
  {
    ConvertZeros(256, 58, 0);
    ConvertZeros(58, 256, 0);
    assert Mirror<nat>([]) == Zeros(0) == [];
  }

  lemma EncodedIs(input: seq<Byte>, first: seq<nat>, sb: seq<nat>, i: nat)
    requires input != [] && i == TrailingZeros(Mirror<nat>(input)) && sb == first + Zeros(i)
    requires var n := Val(256, Mirror<nat>(input)); first == (if n == 0 then [0] else ToDigits(58, n))
    ensures sb == EncodedDigits(input)
  {
    assert [] + (ToDigits(58, Val(256, Mirror<nat>(input))) + Zeros(i)) == ToDigits(58, Val(256, Mirror<nat>(input))) + Zeros(i);
    assert [0] + ([] + Zeros(i)) == [0] + Zeros(i);
  }

  lemma {:induction false} CountZeros(s: seq<nat>, n: nat)
    requires n <= |s| && (forall k :: |s| - n <= k < |s| ==> s[k] == 0)
    requires n < |s| ==> s[|s| - 1 - n] != 0
    ensures TrailingZeros(s) == n
  {
    if n > 0 { CountZeros(s[..|s| - 1], n - 1); }
  }

  /** BigInteger::Pow for a native exponent. */
  method PowOf(base: int, exponent: nat) returns (val: BigInteger)
    requires 0 < base < 0x1_0000_0000
    ensures fresh(val) && val.Canonical() && val.Value() == Pow(base, exponent)
  {
    hide Limbs.Value;
    ValueEmpty();
    var powBase := new BigInteger.FromInt64(base);
    val := new BigInteger.FromInt64(1);
    var i := 0;
    while i < exponent
      invariant 0 <= i <= exponent && fresh(val) && val.Canonical() && val.Value() == Pow(base, i)
      invariant powBase.Canonical() && powBase.Value() == base
    {
      val := val.Times(powBase);
      i := i + 1;
    }
  }

  /** The positions of a text's characters, last character first. */
  ghost predicate Reads(s: string, d: seq<nat>) {
    |d| == |s| && Digits(58, d) && forall k :: 0 <= k < |d| ==> Glyph(d[k]) == s[|s| - 1 - k]
  }

  lemma ReadsSpells(s: string, d: seq<nat>)
    requires Reads(s, d)
    ensures Spells(s, d) && Alphabetic(s)
  {
    hide Glyph;
    forall i | 0 <= i < |s|
      ensures InAlphabet(s[i])
    {
      assert Glyph(d[|s| - 1 - i]) == s[i];
    }
  }

  /** bi += index * 58^k. */
  method AddTerm(bi: BigInteger, index: nat, k: nat) returns (sum: BigInteger)
    requires bi.Canonical() && index < 58
    ensures fresh(sum) && sum.Canonical() && sum.Value() == bi.Value() + index * Pow(58, k)
  {
    hide Limbs.Value, Pow;
    ValueEmpty();
    var digit := new BigInteger.FromInt64(index);
    var weight := PowOf(58, k);
    var term := digit.Times(weight);
    sum := bi.Plus(term);
  }

  lemma ValNothing()
    ensures Val(58, []) == 0
  {
  }

  /** The weighted sum of the characters' positions, from the last character; a character outside
      the alphabet ends it. */
  method SumLoop(input: string) returns (ok: bool, bi: BigInteger, ghost d: seq<nat>)
    ensures fresh(bi) && bi.Canonical() && (ok <==> Alphabetic(input))
    ensures ok ==> Reads(input, d) && bi.Value() == Val(58, d)
  {
    hide Limbs.Value, Pow, Glyph, InAlphabet, Val;
    bi := new BigInteger.FromInt64(0);
    d := [];
    ValNothing();
    var n := |input|;
    var i := n - 1;
    while i >= 0
      invariant -1 <= i < n && bi.Canonical() && fresh(bi)
      invariant |d| == n - 1 - i && Digits(58, d) && forall k :: 0 <= k < |d| ==> Glyph(d[k]) == input[n - 1 - k]
      invariant bi.Value() == Val(58, d)
    {
      var index := AlphabetIndexOf(input[i]);
      if index < 0 {
        return false, bi, d;
      }
      bi := AddTerm(bi, index, n - 1 - i);
      ValSnoc(58, d, index);
      d := d + [index];
      i := i - 1;
    }
    ok := true;
    ReadsSpells(input, d);
  }

  /** Decode: the number's bytes, one zero byte per leading '1'.  Refused exactly when a character
      is not in the alphabet. */
  method Decode(input: string) returns (ok: bool, tmp: seq<Byte>)
    ensures ok <==> Alphabetic(input)
    ensures ok ==> tmp == DecodedText(input)
    ensures !ok ==> tmp == []
  {
    hide Glyph, InAlphabet, ToDigits, TrailingZeros, Convert, Limbs.Value, Val, Decoded;
    if input == [] {
      EncodedEmpty();
      assert Places(input) == [];
      return true, [];
    }
    var bi;
    ghost var d;
    ok, bi, d := SumLoop(input);
    if !ok {
      return false, [];
    }
    ReadsSpells(input, d);
    AlphabeticSpells(input);
    SpellsUnique(input, d, Places(input));
    var bytes := ToUnsignedByteArray(bi);
    SameAsDigits(bytes, bi.Value());
    var leadingZeros := CountLeadingOnes(input);
    LeadingOnes(input, d, leadingZeros);
    var decoded := Zeros(leadingZeros) + Mirror<nat>(bytes);
    DecodedIs(d, bytes, decoded, leadingZeros);
    tmp := decoded;
  }

  /** Encode, then Decode: the bytes come back unless they are a non-empty run of zero bytes. */
  method EncodeThenDecode(input: seq<Byte>) returns (back: seq<Byte>)
    ensures back == input <==> input == [] || exists i :: 0 <= i < |input| && input[i] != 0
  {
    hide Encoded, DecodedText, Alphabetic;
    BytesRoundTrip(input);
    var text := Encode(input);
    var ok;
    ok, back := Decode(text);
  }

  /** Decode, then Encode: a text over the alphabet comes back unless it is a non-empty run of ones. */
  method DecodeThenEncode(input: string) returns (ok: bool, back: string)
    ensures ok <==> Alphabetic(input)
    ensures ok ==> (back == input <==> input == [] || exists i :: 0 <= i < |input| && input[i] != Glyph(0))
  {
    hide Encoded, DecodedText, Alphabetic, Glyph;
    var bytes;
    ok, bytes := Decode(input);
    if !ok {
      return false, [];
    }
    TextRoundTrip(input);
    back := Encode(bytes);
  }

  method CountLeadingOnes(input: string) returns (leadingZeros: nat)
    ensures leadingZeros <= |input| && forall k :: 0 <= k < leadingZeros ==> input[k] == Glyph(0)
    ensures leadingZeros < |input| ==> input[leadingZeros] != Glyph(0)
  {
    hide Glyph;
    leadingZeros := 0;
    while leadingZeros < |input| && input[leadingZeros] == Glyph(0)
      invariant 0 <= leadingZeros <= |input| && forall k :: 0 <= k < leadingZeros ==> input[k] == Glyph(0)
    {
      leadingZeros := leadingZeros + 1;
    }
  }

  lemma SameAsDigits(bytes: seq<Byte>, n: nat)
    requires Trimmed(bytes) && Unsigned(bytes) == n
    ensures bytes == ToDigits(256, n)
  {
    DigitsOfValue(256, bytes);
  }

  lemma LeadingOnes(input: string, d: seq<nat>, n: nat)
    requires Reads(input, d) && n <= |input|
    requires forall k :: 0 <= k < n ==> input[k] == Glyph(0)
    requires n < |input| ==> input[n] != Glyph(0)
    ensures TrailingZeros(d) == n
  {
    hide Glyph, TrailingZeros;
    forall k | |d| - n <= k < |d|
      ensures d[k] == 0
    {
      assert Glyph(d[k]) == input[|input| - 1 - k];
      GlyphInjective(d[k], 0);
    }
    if n < |d| { assert Glyph(d[|d| - 1 - n]) == input[n]; }
    CountZeros(d, n);
  }

  lemma DecodedIs(d: seq<nat>, bytes: seq<Byte>, tmp: seq<nat>, n: nat)
    requires Digits(58, d) && n == TrailingZeros(d) && bytes == ToDigits(256, Val(58, d))
    requires tmp == Zeros(n) + Mirror<nat>(bytes)
    ensures tmp == Decoded(d) && Digits(256, tmp)
  {
    assert Convert(58, 256, d) == bytes + Zeros(n);
  }
}
