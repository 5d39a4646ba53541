/** The field formats of the wire: little-endian words, fixed and length-prefixed bytes, short
    strings and counted arrays. */
module WireFormat {
  import opened Wrappers
  import opened Words64
  import opened Positional
  import opened Codecs

  // ---- little-endian words ------------------------------------------------------------------

  function LittleEndian(v: nat, n: nat): (s: seq<Byte>)
    ensures |s| == n
  {
    if n == 0 then [] else [v % 256] + LittleEndian(v / 256, n - 1)
  }

  function Number(s: seq<Byte>): nat {
    Val(256, s)
  }

  lemma {:induction false} WrittenNumber(v: nat, n: nat)
    ensures v < Pow(256, n) ==> Number(LittleEndian(v, n)) == v
  {
    if n > 0 {
      WrittenNumber(v / 256, n - 1);
      ValCons(256, v % 256, LittleEndian(v / 256, n - 1));
    }
  }

  lemma {:induction false} NumberWritten(s: seq<Byte>)
    ensures Number(s) < Pow(256, |s|) && LittleEndian(Number(s), |s|) == s
  {
    ValBound(256, s);
    WrittenNumber(Number(s), |s|);
    SameValueSameDigits(256, s, LittleEndian(Number(s), |s|));
  }

  lemma {:induction false} BytePowers()
    ensures Pow(256, 1) == 256 && Pow(256, 4) == 0x1_0000_0000 && Pow(256, 8) == 0x1_0000_0000_0000_0000
  {
    assert Pow(256, 2) == 0x1_0000;
    PowAdd(256, 2, 2);
    PowAdd(256, 4, 4);
  }

  function ToU8(s: seq<Byte>): U8 {
    if Number(s) < 256 then Number(s) else 0
  }

  function ToU32(s: seq<Byte>): U32 {
    if Number(s) < 0x1_0000_0000 then Number(s) else 0
  }

  function ToU64(s: seq<Byte>): U64 {
    if Number(s) < 0x1_0000_0000_0000_0000 then Number(s) else 0
  }

  function U8Codec(): Codec<U8> {
    Mapped(Raw(1), (s: seq<Byte>) => ToU8(s), (v: U8) => LittleEndian(v, 1), (v: U8) => true)
  }

  function U32Codec(): Codec<U32> {
    Mapped(Raw(4), (s: seq<Byte>) => ToU32(s), (v: U32) => LittleEndian(v, 4), (v: U32) => true)
  }

  function U64Codec(): Codec<U64> {
    Mapped(Raw(8), (s: seq<Byte>) => ToU64(s), (v: U64) => LittleEndian(v, 8), (v: U64) => true)
  }

  /** A number of a given size. */
  function WholeCodec(size: nat): Codec<nat> {
    Mapped(Raw(size), (s: seq<Byte>) => Number(s), (v: nat) => LittleEndian(v, size), (v: nat) => v < Pow(256, size))
  }

  lemma WholeLawful(size: nat)
    ensures Lawful(WholeCodec(size)) && Canonical(WholeCodec(size)) && WholeCodec(size).least == size
  {
    hide Lawful, Canonical, Pow, Number, LittleEndian;
    RawLawful(size);
    forall v: nat | v < Pow(256, size) ensures Number(LittleEndian(v, size)) == v { WrittenNumber(v, size); }
    forall s: seq<Byte> | |s| == size ensures Number(s) < Pow(256, size) && LittleEndian(Number(s), size) == s { NumberWritten(s); }
    MappedLawful(Raw(size), (s: seq<Byte>) => Number(s), (v: nat) => LittleEndian(v, size), (v: nat) => v < Pow(256, size));
  }

  lemma WordsLawful()
    ensures Lawful(U8Codec()) && Canonical(U8Codec())
    ensures Lawful(U32Codec()) && Canonical(U32Codec())
    ensures Lawful(U64Codec()) && Canonical(U64Codec())
  {
    hide Lawful, Canonical, Pow;
    BytePowers();
    RawLawful(1);
    RawLawful(4);
    RawLawful(8);
    forall v: U8 ensures ToU8(LittleEndian(v, 1)) == v { WrittenNumber(v, 1); }
    forall v: U32 ensures ToU32(LittleEndian(v, 4)) == v { WrittenNumber(v, 4); }
    forall v: U64 ensures ToU64(LittleEndian(v, 8)) == v { WrittenNumber(v, 8); }
    forall s: seq<Byte> | |s| == 1 ensures LittleEndian(ToU8(s), 1) == s { NumberWritten(s); }
    forall s: seq<Byte> | |s| == 4 ensures LittleEndian(ToU32(s), 4) == s { NumberWritten(s); }
    forall s: seq<Byte> | |s| == 8 ensures LittleEndian(ToU64(s), 8) == s { NumberWritten(s); }
    MappedLawful(Raw(1), (s: seq<Byte>) => ToU8(s), (v: U8) => LittleEndian(v, 1), (v: U8) => true);
    MappedLawful(Raw(4), (s: seq<Byte>) => ToU32(s), (v: U32) => LittleEndian(v, 4), (v: U32) => true);
    MappedLawful(Raw(8), (s: seq<Byte>) => ToU64(s), (v: U64) => LittleEndian(v, 8), (v: U64) => true);
  }

  /** Every word can be written; its image has its width. */
  lemma WordShapes()
    ensures (forall v: U8 :: U8Codec().fits(v)) && U8Codec().least == 1
    ensures (forall v: U32 :: U32Codec().fits(v)) && U32Codec().least == 4
    ensures (forall v: U64 :: U64Codec().fits(v)) && U64Codec().least == 8
  {
    hide LittleEndian;
  }

  type I32 = x: int | -0x8000_0000 <= x < 0x8000_0000
  type I64 = x: int | -0x8000_0000_0000_0000 <= x < 0x8000_0000_0000_0000

  function AsI32(v: U32): I32 {
    if v < 0x8000_0000 then v else (v as int) - 0x1_0000_0000
  }

  function FromI32(x: I32): U32 {
    if x >= 0 then x else (x as int) + 0x1_0000_0000
  }

  function AsI64(v: U64): I64 {
    if v < 0x8000_0000_0000_0000 then v else (v as int) - 0x1_0000_0000_0000_0000
  }

  function FromI64(x: I64): U64 {
    if x >= 0 then x else (x as int) + 0x1_0000_0000_0000_0000
  }

  function I32Codec(): Codec<I32> {
    Mapped(U32Codec(), (v: U32) => AsI32(v), (x: I32) => FromI32(x), (x: I32) => true)
  }

  function I64Codec(): Codec<I64> {
    Mapped(U64Codec(), (v: U64) => AsI64(v), (x: I64) => FromI64(x), (x: I64) => true)
  }

  lemma SignedWordsLawful()
    ensures Lawful(I32Codec()) && Canonical(I32Codec())
    ensures Lawful(I64Codec()) && Canonical(I64Codec())
  {
    hide Lawful, Canonical, I32Codec, I64Codec;
    SignedLawful32();
    SignedLawful64();
  }

  lemma SignedLawful32()
    ensures Lawful(I32Codec()) && Canonical(I32Codec())
  {
    hide Lawful, Canonical, U32Codec;
    WordsLawful();
    WordShapes();
    MappedLawful(U32Codec(), (v: U32) => AsI32(v), (x: I32) => FromI32(x), (x: I32) => true);
  }

  lemma SignedLawful64()
    ensures Lawful(I64Codec()) && Canonical(I64Codec())
  {
    hide Lawful, Canonical, U64Codec;
    WordsLawful();
    WordShapes();
    MappedLawful(U64Codec(), (v: U64) => AsI64(v), (x: I64) => FromI64(x), (x: I64) => true);
  }

  // ---- fixed bytes --------------------------------------------------------------------------

  type Bytes32 = s: seq<Byte> | |s| == 32 witness seq(32, _ => 0)
  type Bytes64 = s: seq<Byte> | |s| == 64 witness seq(64, _ => 0)

  function ToBytes32(s: seq<Byte>): Bytes32 {
    if |s| == 32 then s else seq(32, _ => 0)
  }

  function ToBytes64(s: seq<Byte>): Bytes64 {
    if |s| == 64 then s else seq(64, _ => 0)
  }

  function Bytes32Codec(): Codec<Bytes32> {
    Mapped(Raw(32), (s: seq<Byte>) => ToBytes32(s), (v: Bytes32) => v, (v: Bytes32) => true)
  }

  function Bytes64Codec(): Codec<Bytes64> {
    Mapped(Raw(64), (s: seq<Byte>) => ToBytes64(s), (v: Bytes64) => v, (v: Bytes64) => true)
  }

  lemma FixedBytesLawful()
    ensures Lawful(Bytes32Codec()) && Canonical(Bytes32Codec())
    ensures Lawful(Bytes64Codec()) && Canonical(Bytes64Codec())
  {
    hide Lawful, Canonical;
    RawLawful(32);
    RawLawful(64);
    MappedLawful(Raw(32), (s: seq<Byte>) => ToBytes32(s), (v: Bytes32) => v, (v: Bytes32) => true);
    MappedLawful(Raw(64), (s: seq<Byte>) => ToBytes64(s), (v: Bytes64) => v, (v: Bytes64) => true);
  }

  // ---- short strings ------------------------------------------------------------------------

  type SmallString = s: seq<Byte> | |s| < 256

  function ToSmallString(s: seq<Byte>): SmallString {
    if |s| < 256 then s else []
  }

  function WithLength(s: SmallString): (U8, seq<Byte>) {
    (|s|, s)
  }

  function SmallStringCodec(): Codec<SmallString> {
    Mapped(Chain(U8Codec(), (n: U8) => Raw(n), 0), (p: (U8, seq<Byte>)) => ToSmallString(p.1),
           (s: SmallString) => WithLength(s), (s: SmallString) => true)
  }

  lemma SmallStringLawful()
    ensures Lawful(SmallStringCodec()) && Canonical(SmallStringCodec())
  {
    hide Lawful, Canonical, LittleEndian, Number;
    WordsLawful();
    forall n: U8 ensures Lawful(Raw(n)) && Canonical(Raw(n)) { RawLawful(n); }
    ChainLawful(U8Codec(), (n: U8) => Raw(n), 0);
    ChainCanonical(U8Codec(), (n: U8) => Raw(n), 0);
    MappedLawful(Chain(U8Codec(), (n: U8) => Raw(n), 0), (p: (U8, seq<Byte>)) => ToSmallString(p.1),
                 (s: SmallString) => WithLength(s), (s: SmallString) => true);
  }

  // ---- counted bytes and arrays -------------------------------------------------------------

  /** A declared count: a non-negative 32-bit integer whose elements, at their least size, fit the
      bytes that remain. */
  function LengthDec(s: seq<Byte>, elementSize: nat): Answer<nat> {
    if |s| < 4 then None
    else
      var n := Number(s[..4]);
      if n >= 0x8000_0000 || elementSize == 0 then None
      else if n > (|s| - 4) / elementSize then None
      else Some((n, 4))
  }

  lemma FitsInto(n: nat, k: nat, room: nat)
    requires k > 0
    ensures n <= room / k <==> n * k <= room
  {
    Quotients(room, k);
    if n <= room / k {
      Grow(n, room / k, k);
    } else {
      Grow(room / k + 1, n, k);
      assert (room / k + 1) * k == (room / k) * k + k;
    }
  }

  lemma LengthReadsBack(n: nat, elementSize: nat, rest: seq<Byte>)
    requires n < 0x8000_0000 && elementSize > 0 && n * elementSize <= |rest|
    ensures LengthDec(LittleEndian(n, 4) + rest, elementSize) == Some((n, 4))
  {
    hide Pow, Number;
    BytePowers();
    WrittenNumber(n, 4);
    FitsInto(n, elementSize, |rest|);
    assert (LittleEndian(n, 4) + rest)[..4] == LittleEndian(n, 4);
  }

  lemma LengthExtends(s: seq<Byte>, t: seq<Byte>, elementSize: nat)
    requires LengthDec(s, elementSize).Some?
    ensures LengthDec(s + t, elementSize) == LengthDec(s, elementSize)
    ensures LengthDec(s, elementSize).value.0 * elementSize + 4 <= |s| && LengthDec(s, elementSize).value.0 < 0x8000_0000
    ensures LittleEndian(LengthDec(s, elementSize).value.0, 4) == s[..4]
  {
    hide Number;
    assert (s + t)[..4] == s[..4];
    var n := Number(s[..4]);
    FitsInto(n, elementSize, |s| - 4);
    FitsInto(n, elementSize, |s + t| - 4);
    NumberWritten(s[..4]);
  }

  function CountedDec(s: seq<Byte>): Answer<seq<Byte>> {
    match LengthDec(s, 1)
    case None => None
    case Some((n, _)) => if 4 + n <= |s| then Some((s[4..4 + n], 4 + n)) else None
  }

  function Counted(): Codec<seq<Byte>> {
    Codec((v: seq<Byte>) => LittleEndian(|v|, 4) + v, (s: seq<Byte>) => CountedDec(s), (v: seq<Byte>) => |v| < 0x8000_0000, 4)
  }

  lemma CountedLawful()
    ensures Lawful(Counted()) && Canonical(Counted())
  {
    hide LengthDec, LittleEndian;
    var c := Counted();
    forall v: seq<Byte>, rest: seq<Byte> | c.fits(v) ensures c.dec(c.enc(v) + rest) == Some((v, |c.enc(v)|)) {
      LengthReadsBack(|v|, 1, v + rest);
      assert LittleEndian(|v|, 4) + v + rest == LittleEndian(|v|, 4) + (v + rest);
      assert (LittleEndian(|v|, 4) + (v + rest))[4..4 + |v|] == v;
    }
    forall s: seq<Byte>, t: seq<Byte> | c.dec(s).Some? ensures c.dec(s + t) == c.dec(s) && c.fits(c.dec(s).value.0) {
      LengthExtends(s, t, 1);
      var n := LengthDec(s, 1).value.0;
      assert (s + t)[4..4 + n] == s[4..4 + n];
    }
    forall s: seq<Byte> | c.dec(s).Some? ensures c.least <= c.dec(s).value.1 <= |s| && c.fits(c.dec(s).value.0) && c.enc(c.dec(s).value.0) == s[..c.dec(s).value.1] {
      assert c.dec(s + []) == c.dec(s);
      LengthExtends(s, [], 1);
      var n := LengthDec(s, 1).value.0;
      assert s[..4] + s[4..4 + n] == s[..4 + n];
    }
  }

  function EncAll<T>(c: Codec<T>, items: seq<T>): seq<Byte> {
    if items == [] then [] else EncAll(c, items[..|items| - 1]) + c.enc(items[|items| - 1])
  }

  /** The first n elements. */
  function DecAll<T>(c: Codec<T>, n: nat, s: seq<Byte>): Answer<seq<T>> {
    if n == 0 then Some(([], 0))
    else
      match DecAll(c, n - 1, s)
      case None => None
      case Some((items, k)) =>
        if k > |s| then None
        else match c.dec(s[k..]) { case None => None case Some((v, m)) => Some((items + [v], k + m)) }
  }

  lemma DecNext<T>(c: Codec<T>, n: nat, s: seq<Byte>)
    ensures DecAll(c, n + 1, s) ==
      match DecAll(c, n, s)
      case None => None
      case Some((items, k)) =>
        if k > |s| then None
        else match c.dec(s[k..]) { case None => None case Some((v, m)) => Some((items + [v], k + m)) }
  {
  }

  lemma NextProduct(n: nat, k: nat)
    ensures Product(n + 1, k) == Product(n, k) + k && Product(0, k) == 0
  {
    assert (n + 1) * k == n * k + k;
  }

  lemma {:induction false} AllReadBack<T(!new)>(c: Codec<T>, items: seq<T>, rest: seq<Byte>)
    requires Faithful(c) && forall i :: 0 <= i < |items| ==> c.fits(items[i])
    ensures DecAll(c, |items|, EncAll(c, items) + rest) == Some((items, |EncAll(c, items)|))
    ensures |EncAll(c, items)| >= Product(|items|, c.least)
  {
    hide Faithful, Product;
    if items == [] {
      NextProduct(0, c.least);
    } else {
      hide DecAll;
      var n := |items| - 1;
      var x, y := EncAll(c, items[..n]), c.enc(items[n]);
      AllReadBack(c, items[..n], y + rest);
      FaithfulReadsBack(c, items[n], rest);
      assert x + y + rest == x + (y + rest);
      assert (x + (y + rest))[|x|..] == y + rest;
      assert items[..n] + [items[n]] == items;
      DecNext(c, n, x + y + rest);
      NextProduct(n, c.least);
    }
  }

  lemma {:induction false} AllBounded<T(!new)>(c: Codec<T>, n: nat, s: seq<Byte>)
    requires Faithful(c) && DecAll(c, n, s).Some?
    ensures Product(n, c.least) <= DecAll(c, n, s).value.1 <= |s| && |DecAll(c, n, s).value.0| == n
  {
    hide Product, Faithful;
    if n == 0 {
      NextProduct(0, c.least);
    } else {
      hide DecAll;
      DecNext(c, n - 1, s);
      AllBounded(c, n - 1, s);
      FaithfulTakes(c, s[DecAll(c, n - 1, s).value.1..], []);
      NextProduct(n - 1, c.least);
    }
  }

  lemma {:induction false} ElementsFit<T(!new)>(c: Codec<T>, n: nat, s: seq<Byte>)
    requires Lawful(c) && DecAll(c, n, s).Some?
    ensures |DecAll(c, n, s).value.0| == n && forall i :: 0 <= i < n ==> c.fits(DecAll(c, n, s).value.0[i])
  {
    hide Lawful;
    if n > 0 {
      hide DecAll;
      DecNext(c, n - 1, s);
      ElementsFit(c, n - 1, s);
      TakesOnlyItsBytes(c, s[DecAll(c, n - 1, s).value.1..], []);
    }
  }

  lemma {:induction false} AllExtend<T(!new)>(c: Codec<T>, n: nat, s: seq<Byte>, t: seq<Byte>)
    requires Faithful(c) && DecAll(c, n, s).Some?
    ensures DecAll(c, n, s + t) == DecAll(c, n, s)
  {
    hide Faithful;
    if n > 0 {
      hide DecAll;
      DecNext(c, n - 1, s);
      DecNext(c, n - 1, s + t);
      AllExtend(c, n - 1, s, t);
      AllBounded(c, n - 1, s);
      var k := DecAll(c, n - 1, s).value.1;
      FaithfulTakes(c, s[k..], t);
      assert (s + t)[k..] == s[k..] + t;
    }
  }

  lemma EncNext<T>(c: Codec<T>, items: seq<T>, v: T, s: seq<Byte>, k: nat, m: nat)
    requires k + m <= |s| && EncAll(c, items) == s[..k] && c.enc(v) == s[k..][..m]
    ensures EncAll(c, items + [v]) == s[..k + m]
  {
    assert (items + [v])[..|items|] == items;
    assert s[..k] + s[k..][..m] == s[..k + m];
  }

  lemma {:induction false} AllCanonical<T(!new)>(c: Codec<T>, n: nat, s: seq<Byte>)
    requires Lawful(c) && Canonical(c) && DecAll(c, n, s).Some?
    ensures DecAll(c, n, s).value.1 <= |s| && EncAll(c, DecAll(c, n, s).value.0) == s[..DecAll(c, n, s).value.1]
  {
    hide Lawful;
    if n > 0 {
      hide DecAll, EncAll;
      DecNext(c, n - 1, s);
      AllCanonical(c, n - 1, s);
      var (items, k) := DecAll(c, n - 1, s).value;
      var (v, m) := c.dec(s[k..]).value;
      TakesOnlyItsBytes(c, s[k..], []);
      EncNext(c, items, v, s, k, m);
    }
  }

  function ArrayDec<T>(c: Codec<T>, elementSize: nat, s: seq<Byte>): Answer<seq<T>> {
    match LengthDec(s, elementSize)
    case None => None
    case Some((n, _)) =>
      if |s| < 4 then None
      else match DecAll(c, n, s[4..]) { case None => None case Some((items, k)) => Some((items, 4 + k)) }
  }

  /** A counted array whose reader refuses a count that cannot fit, at elementSize bytes each. */
  function ArrayOf<T>(c: Codec<T>, elementSize: nat): Codec<seq<T>> {
    Codec((v: seq<T>) => LittleEndian(|v|, 4) + EncAll(c, v), (s: seq<Byte>) => ArrayDec(c, elementSize, s),
          (v: seq<T>) => |v| < 0x8000_0000 && forall i :: 0 <= i < |v| ==> c.fits(v[i]), 4)
  }

  lemma ArrayShape<T(!new)>(c: Codec<T>, elementSize: nat, v: seq<T>)
    ensures ArrayOf(c, elementSize).fits(v) <==> |v| < 0x8000_0000 && forall i :: 0 <= i < |v| ==> c.fits(v[i])
  {
  }

  /** An array takes bytes it was given, and later bytes change nothing. */
  lemma ArrayTakes<T(!new)>(c: Codec<T>, elementSize: nat, s: seq<Byte>, t: seq<Byte>)
    requires Faithful(c) && ArrayDec(c, elementSize, s).Some?
    ensures ArrayDec(c, elementSize, s + t) == ArrayDec(c, elementSize, s)
    ensures 4 <= ArrayDec(c, elementSize, s).value.1 <= |s|
  {
    hide Faithful, DecAll, LittleEndian, Product;
    var n := LengthDec(s, elementSize).value.0;
    LengthExtends(s, t, elementSize);
    assert (s + t)[4..] == s[4..] + t;
    AllExtend(c, n, s[4..], t);
    AllBounded(c, n, s[4..]);
  }

  lemma ArrayParts<T(!new)>(c: Codec<T>, elementSize: nat, s: seq<Byte>)
    requires Lawful(c) && ArrayDec(c, elementSize, s).Some?
    ensures ArrayDec(c, elementSize, s).value.1 <= |s|
    ensures ArrayOf(c, elementSize).fits(ArrayDec(c, elementSize, s).value.0)
    ensures Canonical(c) ==> ArrayOf(c, elementSize).enc(ArrayDec(c, elementSize, s).value.0) == s[..ArrayDec(c, elementSize, s).value.1]
  {
    hide Lawful, Faithful, DecAll, EncAll, Canonical, LittleEndian, Product;
    var n := LengthDec(s, elementSize).value.0;
    LengthExtends(s, [], elementSize);
    LawfulIsFaithful(c);
    AllBounded(c, n, s[4..]);
    ElementsFit(c, n, s[4..]);
    if Canonical(c) {
      AllCanonical(c, n, s[4..]);
      var k := DecAll(c, n, s[4..]).value.1;
      assert s[..4] + s[4..][..k] == s[..4 + k];
    }
  }

  /** An array reads back when the count check uses a true lower bound of the element's image: then
      nothing the writer produces is refused for its count. */
  lemma ArrayFaithful<T(!new)>(c: Codec<T>, elementSize: nat)
    requires Faithful(c) && 0 < elementSize <= c.least
    ensures Faithful(ArrayOf(c, elementSize)) && ArrayOf(c, elementSize).least == 4
  {
    hide ArrayDec, DecAll, EncAll, LengthDec, LittleEndian;
    var a := ArrayOf(c, elementSize);
    forall v: seq<T>, rest: seq<Byte> | a.fits(v) ensures a.dec(a.enc(v) + rest) == Some((v, |a.enc(v)|)) {
      ArrayReadsBack(c, elementSize, v, rest);
    }
    forall s: seq<Byte>, t: seq<Byte> | a.dec(s).Some? ensures a.dec(s + t) == a.dec(s) {
      ArrayTakes(c, elementSize, s, t);
    }
    forall s: seq<Byte> | a.dec(s).Some? ensures a.least <= a.dec(s).value.1 <= |s| {
      ArrayTakes(c, elementSize, s, []);
    }
  }

  /** An array of lawful elements is lawful. */
  lemma ArrayLawful<T(!new)>(c: Codec<T>, elementSize: nat)
    requires Lawful(c) && 0 < elementSize <= c.least
    ensures Lawful(ArrayOf(c, elementSize))
    ensures Canonical(c) ==> Canonical(ArrayOf(c, elementSize))
  {
    hide ArrayDec, DecAll, EncAll, LengthDec, LittleEndian;
    var a := ArrayOf(c, elementSize);
    LawfulIsFaithful(c);
    ArrayFaithful(c, elementSize);
    forall s: seq<Byte> | a.dec(s).Some? ensures a.least <= a.dec(s).value.1 <= |s| && a.fits(a.dec(s).value.0) {
      ArrayTakes(c, elementSize, s, []);
      ArrayParts(c, elementSize, s);
    }
    if Canonical(c) {
      forall s: seq<Byte> | a.dec(s).Some? && a.dec(s).value.1 <= |s| ensures a.enc(a.dec(s).value.0) == s[..a.dec(s).value.1] {
        ArrayParts(c, elementSize, s);
      }
    }
  }

  lemma LeastProduct(n: nat, k: nat, least: nat)
    requires k <= least
    ensures n * k <= Product(n, least)
  {
    Grow(k, least, n);
    assert n * least == least * n && n * k == k * n;
  }

  lemma ArrayReadsBack<T(!new)>(c: Codec<T>, elementSize: nat, v: seq<T>, rest: seq<Byte>)
    requires Faithful(c) && 0 < elementSize <= c.least && ArrayOf(c, elementSize).fits(v)
    ensures ArrayDec(c, elementSize, LittleEndian(|v|, 4) + EncAll(c, v) + rest) == Some((v, 4 + |EncAll(c, v)|))
  {
    hide Faithful, DecAll, EncAll, LengthDec, LittleEndian, Product;
    var body := EncAll(c, v) + rest;
    AllReadBack(c, v, rest);
    LeastProduct(|v|, elementSize, c.least);
    LengthReadsBack(|v|, elementSize, body);
    assert LittleEndian(|v|, 4) + EncAll(c, v) + rest == LittleEndian(|v|, 4) + body;
    assert (LittleEndian(|v|, 4) + body)[4..] == body;
  }
}
