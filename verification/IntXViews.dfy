/** The 256-bit word and the variable-length integer on views: the readers and writers that fill the
    32-byte word byte by byte. */
module IntXViews {
  import opened Wrappers
  import opened Words64
  import opened Positional
  import opened Codecs
  import opened WireFormat
  import opened SignedBytes
  import opened IntX
  import opened Views

  /** Either a 64-bit word or a full 256-bit word. */
  datatype IntXValue = Normal(normal: U64) | Big(big: Word256)

  function ValueOf(x: IntXValue): int {
    match x
    case Normal(n) => AsI64(n)
    case Big(w) => TwosComplement(w)
  }

  // ---- the 256-bit word ---------------------------------------------------------------------

  function WordImage(word: Word256): seq<Byte> {
    var negative := word[31] >= 128;
    var n := Significant(word, FillByte(negative));
    [HeaderByte(n, negative)] + word[..n]
  }

  function WordDec(s: seq<Byte>): Answer<Word256> {
    if s == [] then None
    else
      var length, negative := s[0] % 64, s[0] >= 128;
      if length > 32 || (s[0] / 64) % 2 == 1 then None
      else if |s| < 1 + length then None
      else
        var word := s[1..1 + length] + Filled(32 - length, negative);
        if (word[31] >= 128) != negative then None else Some((word, 1 + length))
  }

  function Word256Codec(): Codec<Word256> {
    Codec((w: Word256) => WordImage(w), (s: seq<Byte>) => WordDec(s), (w: Word256) => true, 1)
  }

  lemma Word256Lawful()
    ensures Lawful(Word256Codec())
  {
    hide Significant;
    var c := Word256Codec();
    forall w: Word256, rest: seq<Byte> ensures c.dec(c.enc(w) + rest) == Some((w, |c.enc(w)|)) {
      var negative := w[31] >= 128;
      var n := Significant(w, FillByte(negative));
      HeaderFields(n, negative);
      assert (c.enc(w) + rest)[1..1 + n] == w[..n];
      assert w[..n] + Filled(32 - n, negative) == w;
    }
    forall s: seq<Byte>, t: seq<Byte> | c.dec(s).Some? ensures c.dec(s + t) == c.dec(s) {
      assert (s + t)[1..1 + s[0] % 64] == s[1..1 + s[0] % 64];
    }
  }

  /** Reads the header and the payload into the word and repeats the sign above them. */
  method ReadWord(r: ReadView) returns (out: Option<Word256>)
    requires !r.fail
    modifies r`bytes, r`fail
    ensures Reads(Word256Codec(), old(r.bytes), r.bytes, r.fail, out)
  {
    ghost var start := r.bytes;
    var ok, header := r.ReadBytes(1);
    if !ok {
      return None;
    }
    var fill: Byte := if header[0] >= 128 then 255 else 0;
    var length := header[0] % 64;
    if length > 32 || (header[0] / 64) % 2 == 1 {
      return None;
    }
    var payload: seq<Byte> := [];
    if length > 0 {
      ok, payload := r.ReadBytes(length);
      if !ok {
        return None;
      }
    }
    assert payload == start[1..1 + length];
    var word := FillWord(payload, fill);
    if (word[31] >= 128) != (header[0] >= 128) {
      return None;
    }
    out := Some(word);
    assert start[1..][length..] == start[1 + length..];
  }

  method FillWord(payload: seq<Byte>, fill: Byte) returns (word: Word256)
    requires |payload| <= 32 && (fill == 0 || fill == 255)
    ensures word == payload + Filled(32 - |payload|, fill == 255)
  {
    var dst := new Byte[32];
    var i: nat := 0;
    while i != |payload|
      invariant i <= |payload| && dst[..i] == payload[..i]
    {
      dst[i] := payload[i];
      i := i + 1;
    }
    while i != 32
      invariant |payload| <= i <= 32 && dst[..i] == payload + Filled(i - |payload|, fill == 255)
    {
      dst[i] := fill;
      assert dst[..i + 1] == dst[..i] + [fill];
      i := i + 1;
    }
    word := dst[..];
    assert dst[..] == dst[..32];
  }

  /** Trims the high bytes that only repeat the sign and writes what is left behind its header. */
  method WriteWord256(word: Word256, w: WriteView)
    modifies w
    ensures w.m == old(w.m) + WordImage(word)
  {
    var negative := word[31] >= 128;
    var fill := FillByte(negative);
    var countLeadingBytes: nat := 0;
    while countLeadingBytes < 32 && word[31 - countLeadingBytes] == fill
      invariant countLeadingBytes <= 32
      invariant forall i :: 32 - countLeadingBytes <= i < 32 ==> word[i] == fill
    {
      countLeadingBytes := countLeadingBytes + 1;
    }
    var length := 32 - countLeadingBytes;
    assert length == Significant(word, fill);
    w.WriteByte(HeaderByte(length, negative));
    var i: nat := 0;
    ghost var start := w.m;
    while i != length
      invariant i <= length && w.m == start + word[..i]
    {
      w.WriteByte(word[i]);
      assert word[..i + 1] == word[..i] + [word[i]];
      i := i + 1;
    }
    assert word[..32] == word;
  }

  // ---- does the value fit 64 bits? ----------------------------------------------------------

  /** The limbs above the lowest two all repeat the sign. */
  method HighLimbsAre(word: Word256, negative: bool) returns (same: bool)
    ensures same <==> forall i :: 8 <= i < 32 ==> word[i] == FillByte(negative)
  {
    var expected: U32 := if negative then 0xFFFF_FFFF else 0;
    var i: nat := 2;
    while i != 8
      invariant 2 <= i <= 8 && forall k :: 8 <= k < 4 * i ==> word[k] == FillByte(negative)
    {
      var limb := Number(word[4 * i..4 * i + 4]);
      LimbFill(word[4 * i..4 * i + 4], negative);
      if limb != expected {
        return false;
      }
      i := i + 1;
    }
    same := true;
  }

  lemma LimbFill(limb: seq<Byte>, negative: bool)
    requires |limb| == 4
    ensures Number(limb) == (if negative then 0xFFFF_FFFF else 0) <==>
      limb[0] == limb[1] == limb[2] == limb[3] == FillByte(negative)
  {
    var full := Filled(4, negative);
    FillKeeps([], 4, negative);
    assert [] + full == full;
    BytePowers();
    assert Number(full) == if negative then 0xFFFF_FFFF else 0;
    if Number(limb) == Number(full) {
      SameValueSameDigits(256, limb, full);
    } else {
      assert limb != full;
    }
  }

  lemma FittingWord(word: Word256)
    ensures InInt64(TwosComplement(word)) <==>
      (forall i :: 8 <= i < 32 ==> word[i] == FillByte(word[31] >= 128)) && (word[7] >= 128) == (word[31] >= 128)
  {
    hide Pow, SignFilled, Significant;
    var negative := word[31] >= 128;
    TwosIsFilled(word, negative);
    TrimKeeps(word, negative);
    var n := Significant(word, FillByte(negative));
    if n > 8 {
      LongIsBig(word[..n], negative);
      assert word[n - 1] != FillByte(negative);
    } else {
      var p := word[..8];
      assert p + Filled(24, negative) == word;
      FillKeeps(p, 24, negative);
      EightBytes(p, negative);
    }
  }

  /** int256::Is8ByteSafe. */
  method Is8ByteSafe(word: Word256) returns (safe: bool)
    ensures safe <==> InInt64(TwosComplement(word))
  {
    FittingWord(word);
    var negative := word[31] >= 128;
    var high := HighLimbsAre(word, negative);
    if !high {
      return false;
    }
    if !negative {
      if word[7] >= 128 {
        return false;
      }
    } else {
      if word[7] < 128 {
        return false;
      }
    }
    safe := true;
  }

  /** uint256::Is8ByteSafe: only 63-bit unsigned values are safe. */
  method Is8ByteSafeUnsigned(word: Word256) returns (safe: bool)
    ensures safe <==> 0 <= TwosComplement(word) < 0x8000_0000_0000_0000
  {
    hide Pow;
    FittingWord(word);
    TwosIsFilled(word, word[31] >= 128);
    SignFilledRange(word, word[31] >= 128);
    var high := HighLimbsAre(word, false);
    if !high {
      return false;
    }
    if word[7] >= 128 {
      return false;
    }
    safe := true;
  }

  // ---- intx ---------------------------------------------------------------------------------

  method ReadIntX(r: ReadView) returns (out: Option<IntXValue>)
    requires !r.fail
    modifies r`bytes, r`fail, r`nonStandard
    ensures !r.relaxed ==>
      match ReadValue(old(r.bytes))
      case None => out.None?
      case Some((v, n)) => n <= |old(r.bytes)| && out.Some? && ValueOf(out.value) == v && r.bytes == old(r.bytes)[n..] && !r.fail
    ensures r.relaxed ==>
      match RelaxedValue(old(r.bytes))
      case None => out.None? && r.nonStandard == old(r.nonStandard)
      case Some((v, n)) =>
        && n <= |old(r.bytes)| && out.Some? && ValueOf(out.value) == v && r.bytes == old(r.bytes)[n..] && !r.fail
        && r.nonStandard == (old(r.nonStandard) || ReadValue(old(r.bytes)).None?)
  {
    hide SignFilled, TwosComplement;
    ghost var start := r.bytes;
    var test := new ReadView(r.bytes, r.relaxed);
    var ok, header := test.ReadBytes(1);
    if !ok {
      return None;
    }
    if header[0] % 64 < 8 {
      return None;
    }
    if header[0] % 64 == 8 {
      var value;
      ok, value := test.ReadBytes(8);
      if !ok {
        return None;
      }
      assert value == start[1..9];
      var headerIsNegative, valueIsNegative := header[0] >= 128, value[7] >= 128;
      if headerIsNegative == valueIsNegative {
        ok := r.Advance(9);
        out := Some(Normal(ToU64(value)));
        SmallValue(value);
        TwosIsFilled(value, headerIsNegative);
        return;
      }
    }
    var word := ReadWord(r);
    if word.None? {
      return None;
    }
    WordValue(start);
    var safe := Is8ByteSafeUnsigned(word.value);
    if safe {
      var allowed := r.OnNonStandardDataFound();
      if !allowed {
        return None;
      }
    }
    out := Some(Big(word.value));
  }

  lemma SmallValue(p: seq<Byte>)
    requires |p| == 8
    ensures AsI64(ToU64(p)) == TwosComplement(p)
  {
    hide Pow;
    BytePowers();
    NumberWritten(p);
    TopBitDecides(p);
  }

  lemma WordValue(s: seq<Byte>)
    requires WordDec(s).Some?
    ensures TwosComplement(WordDec(s).value.0) == SignFilled(s[1..1 + s[0] % 64], s[0] >= 128)
  {
    hide SignFilled, TwosComplement;
    var length, negative := s[0] % 64, s[0] >= 128;
    FillKeeps(s[1..1 + length], 32 - length, negative);
    TwosIsFilled(s[1..1 + length] + Filled(32 - length, negative), negative);
  }

  method WriteIntX(x: IntXValue, w: WriteView)
    modifies w
    ensures w.m == old(w.m) + WriteValue(ValueOf(x))
  {
    assert ValueOf(x) == match x { case Normal(n) => AsI64(n) case Big(b) => TwosComplement(b) };
    hide SignFilled, TwosComplement, WordOf, WordImage, WriteValue, LittleEndian, ValueOf;
    var value: seq<Byte>;
    match x {
      case Big(big) =>
        var safe := Is8ByteSafe(big);
        if !safe {
          WriteWord256(big, w);
          BigImage(big);
          return;
        }
        value := big[..8];
        SafeBytes(big);
      case Normal(normal) =>
        value := LittleEndian(normal, 8);
        NormalBytes(normal);
    }
    var header: Byte := if value[7] >= 128 then 0x88 else 0x08;
    w.WriteByte(header);
    w.WriteBytes(value);
  }

  lemma BigImage(word: Word256)
    requires !InInt64(TwosComplement(word))
    ensures WriteValue(TwosComplement(word)) == WordImage(word)
  {
    hide Pow, LittleEndian, SignFilled, WordOf, Significant, TwosComplement;
    var negative := word[31] >= 128;
    TwosIsFilled(word, negative);
    SignFilledRange(word, negative);
    WordUnique(word, negative);
  }

  lemma SafeBytes(word: Word256)
    requires InInt64(TwosComplement(word))
    ensures WriteValue(TwosComplement(word)) == [if word[7] >= 128 then 0x88 else 0x08] + word[..8]
  {
    hide Pow, LittleEndian, SignFilled, WordOf, TwosComplement;
    FittingWord(word);
    var p, negative := word[..8], word[31] >= 128;
    assert p + Filled(24, negative) == word;
    FillKeeps(p, 24, negative);
    TwosIsFilled(word, negative);
    SignFilledRange(p, negative);
    WordUnique(p, negative);
  }

  lemma NormalBytes(normal: U64)
    ensures InInt64(AsI64(normal))
    ensures WriteValue(AsI64(normal)) == [if LittleEndian(normal, 8)[7] >= 128 then 0x88 else 0x08] + LittleEndian(normal, 8)
  {
    hide Pow, LittleEndian, SignFilled, WordOf, TwosComplement;
    var p := LittleEndian(normal, 8);
    BytePowers();
    WrittenNumber(normal, 8);
    SmallValue(p);
    var negative := p[7] >= 128;
    TwosIsFilled(p, negative);
    SignFilledRange(p, negative);
    WordUnique(p, negative);
  }
}
