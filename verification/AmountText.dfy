/** Token amounts as decimal text: the parser a wallet trusts with typed amounts and the printer of
    fee summaries. */
module AmountText {
  import opened Wrappers
  import opened Words64
  import opened Positional

  // ---- what the text means ------------------------------------------------------------------

  predicate IsDigit(c: char) {
    '0' <= c <= '9'
  }

  function DigitOf(c: char): nat
    requires IsDigit(c)
  {
    (c as int) - ('0' as int)
  }

  function CharOf(d: nat): (c: char)
    requires d < 10
    ensures IsDigit(c) && DigitOf(c) == d
  {
    (('0' as int) + d) as char
  }

  predicate AllDigits(s: string) {
    forall i :: 0 <= i < |s| ==> IsDigit(s[i])
  }

  /** The number a digit string writes, most significant digit first. */
  function Num(s: string): nat
    requires AllDigits(s)
  {
    if s == [] then 0 else Num(s[..|s| - 1]) * 10 + DigitOf(s[|s| - 1])
  }

  /** Where the decimal point is, or the length of the text. */
  function PointAt(text: string): (p: nat)
    ensures p <= |text| && (p < |text| ==> text[p] == '.') && forall i :: 0 <= i < p ==> text[i] != '.'
  {
    if text == [] || text[0] == '.' then 0 else 1 + PointAt(text[1..])
  }

  function Whole(text: string): string {
    text[..PointAt(text)]
  }

  function Fraction(text: string): string {
    if PointAt(text) == |text| then [] else text[PointAt(text) + 1..]
  }

  /** Digits around at most one point. */
  predicate IsDecimal(text: string) {
    AllDigits(Whole(text)) && AllDigits(Fraction(text))
  }

  /** The amount in the smallest unit. */
  function Atoms(text: string, decimals: nat): nat
    requires IsDecimal(text) && |Fraction(text)| <= decimals
  {
    AllDigitsConcat(Whole(text), Fraction(text));
    Num(Whole(text) + Fraction(text)) * Pow(10, decimals - |Fraction(text)|)
  }

  lemma AllDigitsConcat(s: string, t: string)
    ensures AllDigits(s + t) <==> AllDigits(s) && AllDigits(t)
  {
    if AllDigits(s + t) {
      forall i | 0 <= i < |s| ensures IsDigit(s[i]) { assert (s + t)[i] == s[i]; }
      forall i | 0 <= i < |t| ensures IsDigit(t[i]) { assert (s + t)[|s| + i] == t[i]; }
    }
  }

  /** Exactly the texts that are amounts of a token with that many decimals. */
  predicate IsAmount(text: string, decimals: int) {
    && text != [] && 0 <= decimals <= 18 && IsDecimal(text) && |Fraction(text)| <= decimals
    && Atoms(text, decimals) < 0x1_0000_0000_0000_0000
  }

  // ---- arithmetic of digit strings ----------------------------------------------------------

  lemma NumNext(s: string, c: char)
    requires AllDigits(s) && IsDigit(c)
    ensures AllDigits(s + [c]) && Num(s + [c]) == Num(s) * 10 + DigitOf(c)
  {
    assert (s + [c])[..|s|] == s;
  }

  lemma {:induction false} NumConcat(s: string, t: string)
    requires AllDigits(s) && AllDigits(t)
    ensures AllDigits(s + t) && Num(s + t) == Num(s) * Pow(10, |t|) + Num(t) && Num(t) < Pow(10, |t|)
  {
    hide Pow;
    AllDigitsConcat(s, t);
    if t == [] {
      assert s + t == s;
      PowersOfTen(Num(s));
    } else {
      var n := |t| - 1;
      NumConcat(s, t[..n]);
      assert s + t == (s + t[..n]) + [t[n]];
      NumNext(s + t[..n], t[n]);
      NextPower(n);
      Tens(Num(s), Pow(10, n), Pow(10, n + 1), Num(t[..n]), DigitOf(t[n]));
    }
  }

  lemma NextPower(n: nat)
    ensures Pow(10, n + 1) == 10 * Pow(10, n)
  {
  }

  lemma Tens(a: nat, p: nat, q: nat, b: nat, d: nat)
    requires b < p && d < 10 && q == 10 * p
    ensures (a * p + b) * 10 + d == a * q + (b * 10 + d) && b * 10 + d < q
  {
    assert a * (10 * p) == 10 * (a * p);
  }

  lemma {:induction false} ZerosAre(n: nat)
    ensures AllDigits(seq(n, _ => '0')) && Num(seq(n, _ => '0')) == 0
  {
    var s := seq(n, _ => '0');
    if n > 0 {
      ZerosAre(n - 1);
      assert s[..n - 1] == seq(n - 1, _ => '0');
    }
  }

  lemma GrowTen(v: nat, n: nat)
    ensures v * Pow(10, n + 1) == v * 10 * Pow(10, n) && v * Pow(10, n) >= v
  {
    var p := Pow(10, n);
    assert v * (10 * p) == v * 10 * p;
    Grow(1, p, v);
    assert p * v == v * p;
  }

  // ---- the parser ---------------------------------------------------------------------------

  /** Adding one digit stays in 64 bits exactly when the guard lets it through. */
  lemma DigitGuard(value: U64, digit: nat)
    requires digit < 10
    ensures value > (0xFFFF_FFFF_FFFF_FFFF - digit) / 10 <==> value * 10 + digit > 0xFFFF_FFFF_FFFF_FFFF
  {
  }

  /** The digits seen after i characters, and how many of them follow the point. */
  ghost predicate Scanned(text: string, i: nat, value: nat, seenDecimals: int)
    requires i <= |text|
  {
    && AllDigits(Whole(text[..i])) && AllDigits(Fraction(text[..i]))
    && AllDigits(Whole(text[..i]) + Fraction(text[..i])) && value == Num(Whole(text[..i]) + Fraction(text[..i]))
    && seenDecimals == (if PointAt(text[..i]) == i then -1 else |Fraction(text[..i])|)
  }

  lemma PointStep(text: string, i: nat)
    requires i < |text|
    ensures PointAt(text[..i]) < i ==> PointAt(text[..i + 1]) == PointAt(text[..i])
    ensures PointAt(text[..i]) == i ==> PointAt(text[..i + 1]) == if text[i] == '.' then i else i + 1
  {
    var p, q := PointAt(text[..i]), PointAt(text[..i + 1]);
    assert forall k :: 0 <= k < i ==> text[..i][k] == text[..i + 1][k];
  }

  lemma PartStep(text: string, i: nat)
    requires i < |text|
    ensures PointAt(text[..i]) < i ==>
      Whole(text[..i + 1]) == Whole(text[..i]) && Fraction(text[..i + 1]) == Fraction(text[..i]) + [text[i]]
    ensures PointAt(text[..i]) == i && text[i] == '.' ==>
      Whole(text[..i + 1]) == Whole(text[..i]) && Fraction(text[..i + 1]) == [] && Fraction(text[..i]) == []
    ensures PointAt(text[..i]) == i && text[i] != '.' ==>
      Whole(text[..i + 1]) == Whole(text[..i]) + [text[i]] && Fraction(text[..i + 1]) == [] && Fraction(text[..i]) == []
  {
    PointStep(text, i);
    hide PointAt;
    var a, b := text[..i], text[..i + 1];
    assert b == a + [text[i]];
    if PointAt(a) < i {
      assert b[..PointAt(a)] == a[..PointAt(a)];
      assert b[PointAt(a) + 1..] == a[PointAt(a) + 1..] + [text[i]];
    }
  }

  /** A text keeps the point and the digits of its beginning. */
  lemma {:induction false} Prefixes(text: string, i: nat)
    requires i <= |text|
    ensures PointAt(text[..i]) < i ==> PointAt(text) == PointAt(text[..i])
    ensures Whole(text[..i]) <= Whole(text)
    ensures PointAt(text[..i]) < i ==> Whole(text[..i]) == Whole(text) && Fraction(text[..i]) <= Fraction(text)
    decreases |text| - i
  {
    if i == |text| {
      assert text[..i] == text;
    } else {
      Prefixes(text, i + 1);
      PartStep(text, i);
      PointStep(text, i);
    }
  }

  lemma NumGrows(s: string, t: string)
    requires AllDigits(s) && AllDigits(t) && s <= t
    ensures Num(s) <= Num(t)
  {
    var rest := t[|s|..];
    assert t == s + rest;
    AllDigitsConcat(s, rest);
    NumConcat(s, rest);
    GrowTen(Num(s), |rest|);
  }

  /** Why a character is refused: the whole text is no amount. */
  lemma Refused(text: string, i: nat, value: nat, seenDecimals: int, decimals: nat)
    requires i < |text| && Scanned(text, i, value, seenDecimals)
    requires
      || (text[i] == '.' && seenDecimals >= 0)
      || (text[i] != '.' && !IsDigit(text[i]))
      || (IsDigit(text[i]) && seenDecimals == decimals)
      || (IsDigit(text[i]) && value * 10 + DigitOf(text[i]) > 0xFFFF_FFFF_FFFF_FFFF)
    ensures !IsAmount(text, decimals)
  {
    hide PointAt, Num, Pow;
    PartStep(text, i);
    PointStep(text, i);
    Prefixes(text, i + 1);
    if IsAmount(text, decimals) {
      var w, f := Whole(text[..i + 1]), Fraction(text[..i + 1]);
      if PointAt(text[..i]) < i {
        assert f[|f| - 1] == text[i] && Fraction(text)[|f| - 1] == text[i];
      } else if text[i] != '.' {
        assert w[|w| - 1] == text[i] && Whole(text)[|w| - 1] == text[i];
      }
      if IsDigit(text[i]) {
        Overflows(text, i, decimals);
      }
    }
  }

  lemma Overflows(text: string, i: nat, decimals: nat)
    requires i < |text| && IsAmount(text, decimals) && IsDigit(text[i])
    ensures AllDigits(Whole(text[..i]) + Fraction(text[..i]))
    ensures Num(Whole(text[..i]) + Fraction(text[..i])) * 10 + DigitOf(text[i]) < 0x1_0000_0000_0000_0000
  {
    hide PointAt, Whole, Fraction, Num, Pow, Atoms, AllDigits;
    var s, all := Whole(text[..i]) + Fraction(text[..i]), Whole(text) + Fraction(text);
    ScannedPrefix(text, i);
    AtomsAtLeast(text, decimals);
    DigitsOfPrefix(s + [text[i]], all);
    AllDigitsConcat(s, [text[i]]);
    NumNext(s, text[i]);
    NumGrows(s + [text[i]], all);
  }

  lemma ScannedPrefix(text: string, i: nat)
    requires i < |text| && IsDigit(text[i])
    ensures Whole(text[..i]) + Fraction(text[..i]) + [text[i]] <= Whole(text) + Fraction(text)
  {
    hide PointAt;
    PartStep(text, i);
    Prefixes(text, i + 1);
    PointStep(text, i);
    var w, f := Whole(text[..i]), Fraction(text[..i]);
    if PointAt(text[..i]) < i {
      assert w + f + [text[i]] == w + (f + [text[i]]);
    } else {
      assert w + f + [text[i]] == w + [text[i]];
    }
  }

  lemma DigitsOfPrefix(t: string, all: string)
    requires t <= all && AllDigits(all)
    ensures AllDigits(t)
  {
    forall k | 0 <= k < |t| ensures IsDigit(t[k]) { assert t[k] == all[k]; }
  }

  lemma AtomsAtLeast(text: string, decimals: nat)
    requires IsDecimal(text) && |Fraction(text)| <= decimals
    ensures AllDigits(Whole(text) + Fraction(text)) && Num(Whole(text) + Fraction(text)) <= Atoms(text, decimals)
  {
    hide PointAt, Num, Pow;
    AllDigitsConcat(Whole(text), Fraction(text));
    GrowTen(Num(Whole(text) + Fraction(text)), decimals - |Fraction(text)|);
  }

  method ParseTokenAmount(text: string, decimals: int) returns (out: Option<U64>)
    ensures out.Some? <==> IsAmount(text, decimals)
    ensures out.Some? ==> out.value == Atoms(text, decimals)
  {
    hide PointAt, Whole, Fraction, Num, AllDigits, Pow, Atoms;
    if text == [] || decimals < 0 || decimals > 18 {
      return None;
    }
    var value: U64 := 0;
    var seenDecimals: int := -1;
    var i: nat := 0;
    NothingScanned(text);
    while i != |text|
      invariant i <= |text| && Scanned(text, i, value, seenDecimals) && seenDecimals <= decimals
    {
      var c := text[i];
      ScanStep(text, i, value, seenDecimals);
      if c == '.' {
        if seenDecimals >= 0 {
          Refused(text, i, value, seenDecimals, decimals);
          return None;
        }
        seenDecimals := 0;
      } else {
        if c < '0' || c > '9' {
          Refused(text, i, value, seenDecimals, decimals);
          return None;
        }
        if seenDecimals >= 0 {
          if seenDecimals == decimals {
            Refused(text, i, value, seenDecimals, decimals);
            return None;
          }
        }
        var digit := DigitOf(c);
        DigitGuard(value, digit);
        if value > (0xFFFF_FFFF_FFFF_FFFF - digit) / 10 {
          Refused(text, i, value, seenDecimals, decimals);
          return None;
        }
        if seenDecimals >= 0 {
          seenDecimals := seenDecimals + 1;
        }
        value := (value as nat) * 10 + digit;
      }
      i := i + 1;
    }
    WholeScanned(text, value, seenDecimals);
    out := ScaleUp(value, if seenDecimals < 0 then decimals else decimals - seenDecimals);
    AtomsAre(text, value, decimals);
  }

  lemma NothingScanned(text: string)
    ensures Scanned(text, 0, 0, -1)
  {
    assert text[..0] == [];
  }

  /** What one accepted character adds. */
  lemma ScanStep(text: string, i: nat, value: nat, seenDecimals: int)
    requires i < |text| && Scanned(text, i, value, seenDecimals)
    ensures text[i] == '.' && seenDecimals < 0 ==> Scanned(text, i + 1, value, 0)
    ensures IsDigit(text[i]) ==>
      Scanned(text, i + 1, value * 10 + DigitOf(text[i]), if seenDecimals >= 0 then seenDecimals + 1 else -1)
  {
    hide PointAt, Num;
    PartStep(text, i);
    PointStep(text, i);
    var w, f := Whole(text[..i]), Fraction(text[..i]);
    if IsDigit(text[i]) {
      NumNext(w + f, text[i]);
      AllDigitsConcat(w, [text[i]]);
      AllDigitsConcat(f, [text[i]]);
      assert (w + f) + [text[i]] == w + (f + [text[i]]);
      assert f == [] ==> (w + f) + [text[i]] == (w + [text[i]]) + [];
    } else {
      assert w + [] == w;
    }
  }

  lemma WholeScanned(text: string, value: nat, seenDecimals: int)
    requires Scanned(text, |text|, value, seenDecimals)
    ensures IsDecimal(text) && AllDigits(Whole(text) + Fraction(text)) && value == Num(Whole(text) + Fraction(text))
    ensures |Fraction(text)| == if seenDecimals < 0 then 0 else seenDecimals
  {
    assert text[..|text|] == text;
  }

  lemma AtomsAre(text: string, value: nat, decimals: nat)
    requires IsDecimal(text) && |Fraction(text)| <= decimals && AllDigits(Whole(text) + Fraction(text))
    requires value == Num(Whole(text) + Fraction(text))
    ensures Atoms(text, decimals) == value * Pow(10, decimals - |Fraction(text)|)
  {
  }

  /** Appends the missing zeros, refusing as soon as the value would leave 64 bits. */
  method ScaleUp(start: U64, zeros: nat) returns (out: Option<U64>)
    ensures out.Some? <==> start * Pow(10, zeros) < 0x1_0000_0000_0000_0000
    ensures out.Some? ==> out.value == start * Pow(10, zeros)
  {
    hide Pow;
    var value: U64 := start;
    var i: nat := 0;
    PowersOfTen(start);
    while i != zeros
      invariant i <= zeros && value * Pow(10, zeros - i) == start * Pow(10, zeros)
    {
      GrowTen(value, zeros - i - 1);
      TenGuard(value);
      if value > 0xFFFF_FFFF_FFFF_FFFF / 10 {
        GrowTen((value as nat) * 10, zeros - i - 1);
        return None;
      }
      value := (value as nat) * 10;
      i := i + 1;
    }
    PowersOfTen(value);
    out := Some(value);
  }

  lemma TenGuard(value: U64)
    ensures value > 0xFFFF_FFFF_FFFF_FFFF / 10 <==> (value as nat) * 10 > 0xFFFF_FFFF_FFFF_FFFF
  {
  }

  lemma PowersOfTen(v: nat)
    ensures v * Pow(10, 0) == v && Pow(10, 0) == 1
  {
  }

  // ---- the printer --------------------------------------------------------------------------

  /** The decimal digits of a number. */
  function Decimal(v: nat): (s: string)
    ensures |s| >= 1 && AllDigits(s)
  {
    if v < 10 then [CharOf(v)] else Decimal(v / 10) + [CharOf(v % 10)]
  }

  lemma {:induction false} DecimalReads(v: nat)
    ensures Num(Decimal(v)) == v
  {
    if v < 10 {
      assert Num([CharOf(v)]) == Num([]) * 10 + v by { assert [CharOf(v)][..0] == []; }
    } else {
      DecimalReads(v / 10);
      NumNext(Decimal(v / 10), CharOf(v % 10));
    }
  }

  /** At least one digit in front of the point. */
  function Padded(s: string, decimals: nat): (r: string)
    ensures |r| > decimals
  {
    if |s| > decimals then s else seq(decimals + 1 - |s|, _ => '0') + s
  }

  /** The fraction without its trailing zeros. */
  function TrimmedFraction(f: string): (r: string)
    ensures r <= f && (r != [] ==> r[|r| - 1] != '0') && forall i :: |r| <= i < |f| ==> f[i] == '0'
  {
    if f == [] || f[|f| - 1] != '0' then f else TrimmedFraction(f[..|f| - 1])
  }

  function Formatted(atoms: nat, decimals: nat): string {
    var digits := Padded(Decimal(atoms), decimals);
    var split := |digits| - decimals;
    var fraction := TrimmedFraction(digits[split..]);
    digits[..split] + (if fraction == [] then "" else "." + fraction)
  }

  method FormatTokenAmount(atoms: U64, decimals: int) returns (out: string)
    ensures out == if 0 <= decimals <= 18 then Formatted(atoms, decimals) else ""
  {
    hide Decimal, Padded, TrimmedFraction;
    if decimals < 0 || decimals > 18 {
      return "";
    }
    var digits := PrintDigits(atoms);
    digits := PadDigits(digits, decimals);
    var split := |digits| - decimals;
    var fraction := TrimZeros(digits[split..]);
    out := digits[..split];
    if fraction != [] {
      out := out + ".";
      out := out + fraction;
      assert digits[..split] + "." + fraction == digits[..split] + ("." + fraction);
    } else {
      assert digits[..split] + "" == digits[..split];
    }
  }

  method PadDigits(printed: string, decimals: nat) returns (digits: string)
    ensures digits == Padded(printed, decimals)
  {
    digits := printed;
    ghost var added: nat := 0;
    while |digits| <= decimals
      invariant |digits| == |printed| + added && (added == 0 || |digits| <= decimals + 1)
      invariant digits == seq(added, _ => '0') + printed
      decreases decimals - |digits|
    {
      assert ['0'] + (seq(added, _ => '0') + printed) == seq(added + 1, _ => '0') + printed;
      digits := ['0'] + digits;
      added := added + 1;
    }
  }

  method TrimZeros(full: string) returns (fraction: string)
    ensures fraction == TrimmedFraction(full)
  {
    fraction := full;
    while fraction != [] && fraction[|fraction| - 1] == '0'
      invariant TrimmedFraction(fraction) == TrimmedFraction(full)
      decreases |fraction|
    {
      fraction := fraction[..|fraction| - 1];
    }
  }

  /** Digits are put in front as they are split off. */
  method PrintDigits(atoms: U64) returns (digits: string)
    ensures digits == Decimal(atoms)
  {
    digits := [CharOf(atoms % 10)];
    var value: nat := atoms / 10;
    LastDigit(atoms);
    while value != 0
      invariant Decimal(atoms) == (if value == 0 then digits else Decimal(value) + digits)
      decreases value
    {
      LastDigit(value);
      var rest := value / 10;
      assert rest != 0 ==> Decimal(rest) + [CharOf(value % 10)] + digits == Decimal(rest) + ([CharOf(value % 10)] + digits);
      digits := [CharOf(value % 10)] + digits;
      value := rest;
    }
  }

  lemma LastDigit(v: nat)
    ensures Decimal(v) == if v / 10 == 0 then [CharOf(v % 10)] else Decimal(v / 10) + [CharOf(v % 10)]
  {
  }

  // ---- round trip ---------------------------------------------------------------------------

  lemma PaddedReads(s: string, decimals: nat)
    requires AllDigits(s)
    ensures AllDigits(Padded(s, decimals)) && Num(Padded(s, decimals)) == Num(s)
  {
    if |s| <= decimals {
      var zeros := seq(decimals + 1 - |s|, _ => '0');
      ZerosAre(decimals + 1 - |s|);
      NumConcat(zeros, s);
    }
  }

  /** The point is where the printer put it. */
  lemma PointOf(whole: string, tail: string)
    requires AllDigits(whole) && AllDigits(tail)
    ensures PointAt(whole) == |whole| && PointAt(whole + "." + tail) == |whole|
    ensures Whole(whole) == whole && Fraction(whole) == []
    ensures Whole(whole + "." + tail) == whole && Fraction(whole + "." + tail) == tail
  {
    assert forall i :: 0 <= i < |whole| ==> whole[i] != '.';
    var text := whole + "." + tail;
    assert forall i :: 0 <= i < |whole| ==> text[i] != '.';
    assert text[|whole|] == '.';
    var p := PointAt(text);
    assert text[..|whole|] == whole && text[|whole| + 1..] == tail;
  }

  lemma TrimmedReads(w: string, f: string)
    requires AllDigits(w) && AllDigits(f)
    ensures AllDigits(TrimmedFraction(f)) && |TrimmedFraction(f)| <= |f|
    ensures AllDigits(w + TrimmedFraction(f)) && AllDigits(w + f)
    ensures Num(w + TrimmedFraction(f)) * Pow(10, |f| - |TrimmedFraction(f)|) == Num(w + f)
  {
    hide Num, Pow, TrimmedFraction, AllDigits;
    var t := TrimmedFraction(f);
    var zeros := seq(|f| - |t|, _ => '0');
    assert f == t + zeros;
    ZerosAre(|f| - |t|);
    AllDigitsConcat(t, zeros);
    AllDigitsConcat(w, t);
    NumConcat(w + t, zeros);
    assert w + t + zeros == w + f;
  }

  /** No number of more than one digit begins with a zero. */
  lemma {:induction false} NoLeadingZero(v: nat)
    ensures Decimal(v)[0] == '0' ==> |Decimal(v)| == 1
    ensures v > 0 ==> Decimal(v)[0] != '0'
  {
    if v >= 10 {
      NoLeadingZero(v / 10);
      assert Decimal(v)[0] == Decimal(v / 10)[0];
    }
  }

  lemma WholePart(atoms: nat, decimals: nat)
    ensures
      var digits := Padded(Decimal(atoms), decimals);
      var whole := digits[..|digits| - decimals];
      whole != [] && (whole[0] == '0' ==> |whole| == 1)
  {
    hide Decimal;
    NoLeadingZero(atoms);
  }

  /** Printing an amount and parsing the text gives the amount back, for every 64-bit amount and every
      admissible number of decimals. There is a digit before the point and no zero to spare in front; no
      fraction ends in a zero, and without one there is no point. */
  lemma FormatReads(atoms: nat, decimals: nat)
    requires atoms < 0x1_0000_0000_0000_0000 && decimals <= 18
    ensures IsAmount(Formatted(atoms, decimals), decimals) && Atoms(Formatted(atoms, decimals), decimals) == atoms
    ensures var f := Fraction(Formatted(atoms, decimals)); f == [] || f[|f| - 1] != '0'
    ensures Whole(Formatted(atoms, decimals)) != [] && (Whole(Formatted(atoms, decimals))[0] == '0' ==> |Whole(Formatted(atoms, decimals))| == 1)
    ensures Fraction(Formatted(atoms, decimals)) == [] ==> PointAt(Formatted(atoms, decimals)) == |Formatted(atoms, decimals)|
  {
    WholePart(atoms, decimals);
    hide Decimal, Padded, PointAt, Whole, Fraction, Num, AllDigits, Pow, TrimmedFraction;
    DecimalReads(atoms);
    var digits := Padded(Decimal(atoms), decimals);
    PaddedReads(Decimal(atoms), decimals);
    var split := |digits| - decimals;
    var whole, full := digits[..split], digits[split..];
    assert whole + full == digits;
    AllDigitsConcat(whole, full);
    var fraction := TrimmedFraction(full);
    TrimmedReads(whole, full);
    PointOf(whole, fraction);
    assert whole + "" == whole;
    assert whole + ("." + fraction) == whole + "." + fraction;
    assert fraction == [] ==> whole + [] == whole;
  }

  /** A point without digits is an amount of zero, whatever the token's decimals. */
  lemma PointIsZero(decimals: int)
    ensures IsAmount(".", decimals) <==> 0 <= decimals <= 18
    ensures 0 <= decimals <= 18 ==> Atoms(".", decimals) == 0
  {
    hide Pow;
    assert PointAt(".") == 0 && Whole(".") == "" && Fraction(".") == "";
  }
}
