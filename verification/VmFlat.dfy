/** The wire form of the values that hold no other values: numbers, byte blocks, texts, byte lists and
    arrays of them. */
module VmFlat {
  import opened Wrappers
  import opened Words64
  import opened Positional
  import opened Codecs
  import opened WireFormat
  import opened FaithfulCodecs
  import opened IntX
  import opened IntXViews
  import opened VmNames
  import opened VmValues

  // ---- zero-terminated texts ----------------------------------------------------------------

  /** The bytes up to the first zero, which is taken too. */
  function TextDec(s: seq<Byte>): Answer<seq<Byte>> {
    if s == [] then None
    else if s[0] == 0 then Some(([], 1))
    else
      match TextDec(s[1..])
      case None => None
      case Some((t, n)) => Some(([s[0]] + t, n + 1))
  }

  function TextCodec(): Codec<seq<Byte>> {
    Codec((t: seq<Byte>) => t + [0], (s: seq<Byte>) => TextDec(s), (t: seq<Byte>) => ZeroFree(t), 1)
  }

  lemma {:induction false} TextReadsBack(t: seq<Byte>, rest: seq<Byte>)
    requires ZeroFree(t)
    ensures TextDec(t + [0] + rest) == Some((t, |t| + 1))
  {
    var s := t + [0] + rest;
    if t != [] {
      TextReadsBack(t[1..], rest);
      assert s[1..] == t[1..] + [0] + rest;
      assert t == [t[0]] + t[1..];
    }
  }

  lemma {:induction false} TextTakes(s: seq<Byte>, t: seq<Byte>)
    requires TextDec(s).Some?
    ensures TextDec(s + t) == TextDec(s) && 1 <= TextDec(s).value.1 <= |s|
  {
    if s[0] != 0 {
      TextTakes(s[1..], t);
      assert (s + t)[1..] == s[1..] + t;
    }
  }

  lemma {:induction false} TextIsZeroFree(s: seq<Byte>)
    requires TextDec(s).Some?
    ensures ZeroFree(TextDec(s).value.0)
  {
    if s[0] != 0 { TextIsZeroFree(s[1..]); }
  }

  lemma TextLawful()
    ensures Lawful(TextCodec())
  {
    hide TextDec, ZeroFree;
    var c := TextCodec();
    forall v: seq<Byte>, rest: seq<Byte> | c.fits(v) ensures c.dec(c.enc(v) + rest) == Some((v, |c.enc(v)|)) {
      TextReadsBack(v, rest);
    }
    forall s: seq<Byte>, t: seq<Byte> | c.dec(s).Some? ensures c.dec(s + t) == c.dec(s) {
      TextTakes(s, t);
    }
    forall s: seq<Byte> | c.dec(s).Some? ensures c.least <= c.dec(s).value.1 <= |s| && c.fits(c.dec(s).value.0) {
      TextTakes(s, []);
      TextIsZeroFree(s);
    }
  }

  // ---- numbers of a given size --------------------------------------------------------------

  lemma WholeFaithful(size: nat)
    ensures Faithful(WholeCodec(size))
  {
    hide Lawful, Faithful, WholeCodec;
    WholeLawful(size);
    LawfulIsFaithful(WholeCodec(size));
  }

  // ---- which layout a type byte names -------------------------------------------------------

  function BytesIn(v: Value): Option<seq<Byte>> { if v.Bytes? then Some(v.bytes) else None }
  function WholeIn(v: Value, size: nat): Option<nat> { if v.Whole? && v.size == size then Some(v.number) else None }
  function WideIn(v: Value): Option<Word256> { if v.Wide? then Some(v.wide) else None }
  function BlockIn(v: Value, width: nat): Option<seq<Byte>> { if v.Block? && v.width == width then Some(v.block) else None }
  function TextIn(v: Value): Option<seq<Byte>> { if v.Text? then Some(v.text) else None }
  function ListsIn(v: Value): Option<seq<seq<Byte>>> { if v.ByteLists? then Some(v.lists) else None }
  function WholesIn(v: Value, size: nat): Option<seq<nat>> { if v.Wholes? && v.size == size then Some(v.numbers) else None }
  function WidesIn(v: Value): Option<seq<Word256>> { if v.Wides? then Some(v.wides) else None }
  function BlocksIn(v: Value, width: nat): Option<seq<seq<Byte>>> { if v.Blocks? && v.width == width then Some(v.blocks) else None }
  function TextsIn(v: Value): Option<seq<seq<Byte>>> { if v.Texts? then Some(v.texts) else None }

  function OneFlat(tag: int): Codec<Value> {
    if tag == BYTES then Variant(Counted(), (b: seq<Byte>) => Bytes(b), (v: Value) => BytesIn(v))
    else if NumberSize(tag) > 0 then Variant(WholeCodec(NumberSize(tag)), (n: nat) => Whole(NumberSize(tag), n), (v: Value) => WholeIn(v, NumberSize(tag)))
    else if tag == INT256 then Variant(Word256Codec(), (w: Word256) => Wide(w), (v: Value) => WideIn(v))
    else if BlockSize(tag) > 0 then Variant(Raw(BlockSize(tag)), (b: seq<Byte>) => Block(BlockSize(tag), b), (v: Value) => BlockIn(v, BlockSize(tag)))
    else if tag == STRING then Variant(TextCodec(), (t: seq<Byte>) => Text(t), (v: Value) => TextIn(v))
    else Bottom(1)
  }

  /** Arrays: the count check divides by the size of an element where the source knows one. */
  function ManyFlat(tag: int): Codec<Value> {
    if tag == ARRAY_BYTES then Variant(ArrayOf(Counted(), 4), (b: seq<seq<Byte>>) => ByteLists(b), (v: Value) => ListsIn(v))
    else if NumberSize(tag - 1) > 0 then
      Variant(ArrayOf(WholeCodec(NumberSize(tag - 1)), NumberSize(tag - 1)), (n: seq<nat>) => Wholes(NumberSize(tag - 1), n), (v: Value) => WholesIn(v, NumberSize(tag - 1)))
    else if tag == ARRAY_INT256 then Variant(ArrayOf(Word256Codec(), 1), (w: seq<Word256>) => Wides(w), (v: Value) => WidesIn(v))
    else if BlockSize(tag - 1) > 0 then
      Variant(ArrayOf(Raw(BlockSize(tag - 1)), BlockSize(tag - 1)), (b: seq<seq<Byte>>) => Blocks(BlockSize(tag - 1), b), (v: Value) => BlocksIn(v, BlockSize(tag - 1)))
    else if tag == ARRAY_STRING then Variant(ArrayOf(TextCodec(), 1), (t: seq<seq<Byte>>) => Texts(t), (v: Value) => TextsIn(v))
    else Bottom(1)
  }

  function FlatCodec(tag: Byte): Codec<Value> {
    if tag % 2 == 0 then OneFlat(tag) else ManyFlat(tag)
  }

  lemma OneFaithful(tag: int)
    ensures Faithful(OneFlat(tag)) && OneFlat(tag).least >= 1
  {
    hide Faithful, Lawful, Canonical, Counted, WholeCodec, Word256Codec, TextCodec;
    ElementsFaithful();
    if tag == BYTES {
      VariantFaithful(Counted(), (b: seq<Byte>) => Bytes(b), (v: Value) => BytesIn(v));
    } else if NumberSize(tag) > 0 {
      WholeFaithful(NumberSize(tag));
      VariantFaithful(WholeCodec(NumberSize(tag)), (n: nat) => Whole(NumberSize(tag), n), (v: Value) => WholeIn(v, NumberSize(tag)));
      WholeLeast(NumberSize(tag));
    } else if tag == INT256 {
      VariantFaithful(Word256Codec(), (w: Word256) => Wide(w), (v: Value) => WideIn(v));
    } else if BlockSize(tag) > 0 {
      RawLawful(BlockSize(tag));
      LawfulIsFaithful(Raw(BlockSize(tag)));
      VariantFaithful(Raw(BlockSize(tag)), (b: seq<Byte>) => Block(BlockSize(tag), b), (v: Value) => BlockIn(v, BlockSize(tag)));
    } else if tag == STRING {
      VariantFaithful(TextCodec(), (t: seq<Byte>) => Text(t), (v: Value) => TextIn(v));
    } else {
      BottomFaithful<Value>(1);
    }
  }

  lemma ManyFaithful(tag: int)
    ensures Faithful(ManyFlat(tag)) && ManyFlat(tag).least >= 1
  {
    hide Faithful, Lawful, Canonical, Counted, WholeCodec, Word256Codec, TextCodec, ArrayOf;
    ElementsFaithful();
    if tag == ARRAY_BYTES {
      ArrayFaithful(Counted(), 4);
      VariantFaithful(ArrayOf(Counted(), 4), (b: seq<seq<Byte>>) => ByteLists(b), (v: Value) => ListsIn(v));
    } else if NumberSize(tag - 1) > 0 {
      var size := NumberSize(tag - 1);
      WholeFaithful(size);
      WholeLeast(size);
      ArrayFaithful(WholeCodec(size), size);
      VariantFaithful(ArrayOf(WholeCodec(NumberSize(tag - 1)), NumberSize(tag - 1)), (n: seq<nat>) => Wholes(NumberSize(tag - 1), n), (v: Value) => WholesIn(v, NumberSize(tag - 1)));
    } else if tag == ARRAY_INT256 {
      ArrayFaithful(Word256Codec(), 1);
      VariantFaithful(ArrayOf(Word256Codec(), 1), (w: seq<Word256>) => Wides(w), (v: Value) => WidesIn(v));
    } else if BlockSize(tag - 1) > 0 {
      var width := BlockSize(tag - 1);
      RawLawful(width);
      LawfulIsFaithful(Raw(width));
      ArrayFaithful(Raw(width), width);
      VariantFaithful(ArrayOf(Raw(BlockSize(tag - 1)), BlockSize(tag - 1)), (b: seq<seq<Byte>>) => Blocks(BlockSize(tag - 1), b), (v: Value) => BlocksIn(v, BlockSize(tag - 1)));
    } else if tag == ARRAY_STRING {
      ArrayFaithful(TextCodec(), 1);
      VariantFaithful(ArrayOf(TextCodec(), 1), (t: seq<seq<Byte>>) => Texts(t), (v: Value) => TextsIn(v));
    } else {
      BottomFaithful<Value>(1);
    }
  }

  lemma ElementsFaithful()
    ensures Faithful(Counted()) && Faithful(Word256Codec()) && Faithful(TextCodec())
    ensures Counted().least == 4 && Word256Codec().least == 1 && TextCodec().least == 1
  {
    hide Faithful, Lawful, Canonical;
    CountedLawful();
    LawfulIsFaithful(Counted());
    Word256Lawful();
    LawfulIsFaithful(Word256Codec());
    TextLawful();
    LawfulIsFaithful(TextCodec());
  }

  lemma WholeLeast(size: nat)
    ensures WholeCodec(size).least == size
  {
  }

  /** Every flat value comes back from its image, whichever its type. */
  lemma FlatFaithful(tag: Byte)
    ensures Faithful(FlatCodec(tag)) && FlatCodec(tag).least >= 1
  {
    hide Faithful, OneFlat, ManyFlat;
    OneFaithful(tag);
    ManyFaithful(tag);
  }

  // ---- which flat values can be written -----------------------------------------------------

  predicate Short<T>(items: seq<T>) {
    |items| < 0x8000_0000
  }

  /** A value that holds no other values, as the writer may be given it. */
  predicate FlatFits(v: Value) {
    match v
    case Bytes(b) => Short(b)
    case Whole(size, n) => size in {1, 2, 4, 8} && n < Pow(256, size)
    case Wide(w) => true
    case Block(width, b) => width in {16, 32, 64} && |b| == width
    case Text(t) => ZeroFree(t)
    case ByteLists(bs) => Short(bs) && forall i :: 0 <= i < |bs| ==> Short(bs[i])
    case Wholes(size, ns) => size in {1, 2, 4, 8} && Short(ns) && forall i :: 0 <= i < |ns| ==> ns[i] < Pow(256, size)
    case Wides(ws) => Short(ws)
    case Blocks(width, bs) => width in {16, 32, 64} && Short(bs) && forall i :: 0 <= i < |bs| ==> |bs[i]| == width
    case Texts(ts) => Short(ts) && forall i :: 0 <= i < |ts| ==> ZeroFree(ts[i])
    case _ => false
  }

  /** What one flat type takes, case by case. */
  predicate OneTakes(tag: int, v: Value) {
    if tag == BYTES then v.Bytes? && Short(v.bytes)
    else if NumberSize(tag) > 0 then v.Whole? && v.size == NumberSize(tag) && v.number < Pow(256, v.size)
    else if tag == INT256 then v.Wide?
    else if BlockSize(tag) > 0 then v.Block? && v.width == BlockSize(tag) && |v.block| == v.width
    else tag == STRING && v.Text? && ZeroFree(v.text)
  }

  predicate ManyTake(tag: int, v: Value) {
    if tag == ARRAY_BYTES then v.ByteLists? && Short(v.lists) && forall i :: 0 <= i < |v.lists| ==> Short(v.lists[i])
    else if NumberSize(tag - 1) > 0 then
      v.Wholes? && v.size == NumberSize(tag - 1) && Short(v.numbers) && forall i :: 0 <= i < |v.numbers| ==> v.numbers[i] < Pow(256, v.size)
    else if tag == ARRAY_INT256 then v.Wides? && Short(v.wides)
    else if BlockSize(tag - 1) > 0 then
      v.Blocks? && v.width == BlockSize(tag - 1) && Short(v.blocks) && forall i :: 0 <= i < |v.blocks| ==> |v.blocks[i]| == v.width
    else tag == ARRAY_STRING && v.Texts? && Short(v.texts) && forall i :: 0 <= i < |v.texts| ==> ZeroFree(v.texts[i])
  }

  lemma OneFits(tag: int, v: Value)
    ensures OneFlat(tag).fits(v) <==> OneTakes(tag, v)
  {
    hide Pow, NumberSize, BlockSize, ZeroFree;
  }

  lemma ManyFit(tag: int, v: Value)
    ensures ManyFlat(tag).fits(v) <==> ManyTake(tag, v)
  {
    hide Pow, NumberSize, BlockSize, ZeroFree;
  }

  lemma OneFitsIs(tag: int, v: Value)
    ensures OneFlat(tag).fits(v) <==> TagOf(v) == tag && tag % 2 == 0 && FlatFits(v)
  {
    hide OneFlat, Pow;
    OneFits(tag, v);
  }

  lemma ManyFitsIs(tag: int, v: Value)
    ensures ManyFlat(tag).fits(v) <==> TagOf(v) == tag && tag % 2 == 1 && FlatFits(v)
  {
    hide ManyFlat, Pow;
    ManyFit(tag, v);
  }

  lemma FlatFitsIs(tag: Byte, v: Value)
    ensures FlatCodec(tag).fits(v) <==> TagOf(v) == tag && FlatFits(v)
  {
    hide OneFlat, ManyFlat, FlatFits;
    OneFitsIs(tag, v);
    ManyFitsIs(tag, v);
  }
}
