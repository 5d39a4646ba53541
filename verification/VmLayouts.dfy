/** The bytes of every kind of VM value, of named fields, of structs and of schemas, in order. */
module VmLayouts {
  import opened Wrappers
  import opened Words64
  import opened Codecs
  import opened WireFormat
  import opened IntX
  import opened IntXViews
  import opened FaithfulCodecs
  import opened VmNames
  import opened VmValues
  import opened VmFlat
  import opened VmSchemas
  import opened VmStructs
  import opened VmCodec
  import Layouts
  import NumberLayouts

  // ---- one image after another --------------------------------------------------------------

  function Spliced(images: seq<seq<Byte>>): seq<Byte> {
    if images == [] then [] else images[0] + Spliced(images[1..])
  }

  lemma {:induction false} SplicedMore(images: seq<seq<Byte>>, last: seq<Byte>)
    ensures Spliced(images + [last]) == Spliced(images) + last
  {
    if images == [] {
      assert Spliced([last]) == last + Spliced([]);
    } else {
      assert (images + [last])[1..] == images[1..] + [last];
      SplicedMore(images[1..], last);
    }
  }

  /** An array behind its count. */
  function Counting(images: seq<seq<Byte>>): seq<Byte> {
    LittleEndian(|images|, 4) + Spliced(images)
  }

  function Images<T>(c: Codec<T>, xs: seq<T>): (images: seq<seq<Byte>>)
    ensures |images| == |xs| && forall i :: 0 <= i < |xs| ==> images[i] == c.enc(xs[i])
  {
    seq(|xs|, i requires 0 <= i < |xs| => c.enc(xs[i]))
  }

  lemma {:induction false} AllSpliced<T>(c: Codec<T>, xs: seq<T>)
    ensures EncAll(c, xs) == Spliced(Images(c, xs))
  {
    if xs != [] {
      var n := |xs| - 1;
      AllSpliced(c, xs[..n]);
      assert Images(c, xs) == Images(c, xs[..n]) + [c.enc(xs[n])];
      SplicedMore(Images(c, xs[..n]), c.enc(xs[n]));
    }
  }

  /** An array is its count and the images of its elements. */
  lemma ArrayImage<T>(c: Codec<T>, size: nat, xs: seq<T>, images: seq<seq<Byte>>)
    requires |images| == |xs| && forall i :: 0 <= i < |xs| ==> images[i] == c.enc(xs[i])
    ensures ArrayOf(c, size).enc(xs) == Counting(images) && Listed(c).enc(xs) == Counting(images)
  {
    hide EncAll, LittleEndian;
    AllSpliced(c, xs);
    assert images == Images(c, xs);
  }

  lemma {:induction false} RowSpliced<T>(cs: seq<Codec<T>>, vs: seq<T>, images: seq<seq<Byte>>)
    requires |cs| == |vs| == |images| && forall i :: 0 <= i < |cs| ==> images[i] == cs[i].enc(vs[i])
    ensures EncRow(cs, vs) == Spliced(images)
  {
    if cs != [] { RowSpliced(cs[1..], vs[1..], images[1..]); }
  }

  // ---- values that hold no other values -----------------------------------------------------

  lemma Typed(depth: nat, v: Value)
    ensures ValueCodec(depth).enc(v) == [TagOf(v)] + Core(depth, Untyped(TagOf(v))).enc(v)
  {
    hide Core;
  }

  lemma FlatIs(depth: nat, v: Value)
    requires !v.Nothing? && !v.Dynamic? && !v.Record? && !v.Values? && !v.Records?
    ensures ValueCodec(depth).enc(v) == [TagOf(v)] + FlatCodec(TagOf(v)).enc(v)
  {
    hide FlatCodec, ValueCodec, StructBy, StructOf, SelfDescribed, SchemaCodec, DynamicOf, ItemsOf, RecordOf, RecordsBy;
    Typed(depth, v);
  }

  /** The type byte and the payload of a single flat value. */
  lemma SingleLayout(depth: nat, v: Value)
    ensures
      var image := ValueCodec(depth).enc(v);
      match v
      case Bytes(b) => image == [2] + LittleEndian(|b|, 4) + b
      case Whole(size, n) =>
        && (size == 1 ==> image == [6] + LittleEndian(n, 1))
        && (size == 2 ==> image == [8] + LittleEndian(n, 2))
        && (size == 4 ==> image == [10] + LittleEndian(n, 4))
        && (size == 8 ==> image == [12] + LittleEndian(n, 8))
      case Wide(w) => image == [14] + WordImage(w)
      case Block(width, b) =>
        && (width == 16 ==> image == [16] + b)
        && (width == 32 ==> image == [18] + b)
        && (width == 64 ==> image == [20] + b)
      case Text(t) => image == [22] + t + [0]
      case _ => true
  {
    hide LittleEndian, WordImage, ValueCodec, FlatCodec;
    match v
    case Bytes(b) => FlatIs(depth, v); BytesImage(b);
    case Whole(size, n) => FlatIs(depth, v); if size in {1, 2, 4, 8} { WholeImage(NumberTag(size), n); }
    case Wide(w) => FlatIs(depth, v); WideImage(w);
    case Block(width, b) => FlatIs(depth, v); if width in {16, 32, 64} { BlockImage(BlockTag(width), b); }
    case Text(t) => FlatIs(depth, v); TextImage(t);
    case _ =>
  }

  lemma BytesImage(b: seq<Byte>)
    ensures FlatCodec(2).enc(Bytes(b)) == LittleEndian(|b|, 4) + b
  {
    hide LittleEndian;
  }

  lemma WholeImage(tag: Byte, n: nat)
    requires tag % 2 == 0 && NumberSize(tag) > 0
    ensures FlatCodec(tag).enc(Whole(NumberSize(tag), n)) == LittleEndian(n, NumberSize(tag))
  {
    hide LittleEndian;
  }

  lemma WideImage(w: Word256)
    ensures FlatCodec(14).enc(Wide(w)) == WordImage(w)
  {
    hide WordImage;
  }

  lemma BlockImage(tag: Byte, b: seq<Byte>)
    requires tag % 2 == 0 && BlockSize(tag) > 0
    ensures FlatCodec(tag).enc(Block(BlockSize(tag), b)) == b
  {
  }

  lemma TextImage(t: seq<Byte>)
    ensures FlatCodec(22).enc(Text(t)) == t + [0]
  {
  }

  function WholeImages(size: nat, ns: seq<nat>): (images: seq<seq<Byte>>)
    ensures |images| == |ns|
  {
    seq(|ns|, i requires 0 <= i < |ns| => LittleEndian(ns[i], size))
  }

  function ListImages(bs: seq<seq<Byte>>): (images: seq<seq<Byte>>)
    ensures |images| == |bs|
  {
    seq(|bs|, i requires 0 <= i < |bs| => LittleEndian(|bs[i]|, 4) + bs[i])
  }

  function WideImages(ws: seq<Word256>): (images: seq<seq<Byte>>)
    ensures |images| == |ws|
  {
    seq(|ws|, i requires 0 <= i < |ws| => WordImage(ws[i]))
  }

  function TextImages(ts: seq<seq<Byte>>): (images: seq<seq<Byte>>)
    ensures |images| == |ts|
  {
    seq(|ts|, i requires 0 <= i < |ts| => ts[i] + [0])
  }

  /** The type byte, the count and the elements of an array of flat values. */
  lemma ArrayLayout(depth: nat, v: Value)
    ensures
      var image := ValueCodec(depth).enc(v);
      match v
      case ByteLists(bs) => image == [3] + Counting(ListImages(bs))
      case Wholes(size, ns) =>
        && (size == 1 ==> image == [7] + Counting(WholeImages(1, ns)))
        && (size == 2 ==> image == [9] + Counting(WholeImages(2, ns)))
        && (size == 4 ==> image == [11] + Counting(WholeImages(4, ns)))
        && (size == 8 ==> image == [13] + Counting(WholeImages(8, ns)))
      case Wides(ws) => image == [15] + Counting(WideImages(ws))
      case Blocks(width, bs) =>
        && (width == 16 ==> image == [17] + Counting(bs))
        && (width == 32 ==> image == [19] + Counting(bs))
        && (width == 64 ==> image == [21] + Counting(bs))
      case Texts(ts) => image == [23] + Counting(TextImages(ts))
      case _ => true
  {
    hide LittleEndian, WordImage, ValueCodec, FlatCodec, Counting, WholeImages;
    match v
    case ByteLists(bs) => FlatIs(depth, v); ListsImage(v);
    case Wholes(size, ns) => FlatIs(depth, v); if size in {1, 2, 4, 8} { WholesImage(NumberTag(size) + 1, ns); }
    case Wides(ws) => FlatIs(depth, v); WidesImage(v);
    case Blocks(width, bs) => FlatIs(depth, v); if width in {16, 32, 64} { BlocksImage(BlockTag(width) + 1, bs); }
    case Texts(ts) => FlatIs(depth, v); TextsImage(v);
    case _ =>
  }

  lemma ListsImage(v: Value)
    requires v.ByteLists?
    ensures FlatCodec(3).enc(v) == Counting(ListImages(v.lists))
  {
    hide LittleEndian, ArrayOf, Counting;
    ArrayImage(Counted(), 4, v.lists, ListImages(v.lists));
  }

  lemma WholesImage(tag: Byte, ns: seq<nat>)
    requires tag % 2 == 1 && NumberSize(tag - 1) > 0
    ensures FlatCodec(tag).enc(Wholes(NumberSize(tag - 1), ns)) == Counting(WholeImages(NumberSize(tag - 1), ns))
  {
    hide LittleEndian, ArrayOf, Counting, WholeCodec, NumberSize;
    var size := NumberSize(tag - 1);
    WholeElements(size, ns);
    ManyWholes(tag, ns);
  }

  lemma WholeElements(size: nat, ns: seq<nat>)
    ensures ArrayOf(WholeCodec(size), size).enc(ns) == Counting(WholeImages(size, ns))
  {
    hide LittleEndian, ArrayOf, Counting;
    ArrayImage(WholeCodec(size), size, ns, WholeImages(size, ns));
  }

  lemma ManyWholes(tag: Byte, ns: seq<nat>)
    requires tag % 2 == 1 && NumberSize(tag - 1) > 0
    ensures FlatCodec(tag).enc(Wholes(NumberSize(tag - 1), ns)) == ArrayOf(WholeCodec(NumberSize(tag - 1)), NumberSize(tag - 1)).enc(ns)
  {
    hide ArrayOf, WholeCodec;
    var size := NumberSize(tag - 1);
    var v := Wholes(size, ns);
    assert FlatCodec(tag) == ManyFlat(tag);
    assert ManyFlat(tag) == Variant(ArrayOf(WholeCodec(NumberSize(tag - 1)), NumberSize(tag - 1)), (n: seq<nat>) => Wholes(NumberSize(tag - 1), n), (v: Value) => WholesIn(v, NumberSize(tag - 1)));
  }

  lemma WidesImage(v: Value)
    requires v.Wides?
    ensures FlatCodec(15).enc(v) == Counting(WideImages(v.wides))
  {
    hide WordImage, ArrayOf, Counting;
    ArrayImage(Word256Codec(), 1, v.wides, WideImages(v.wides));
  }

  lemma BlocksImage(tag: Byte, bs: seq<seq<Byte>>)
    requires tag % 2 == 1 && BlockSize(tag - 1) > 0
    ensures FlatCodec(tag).enc(Blocks(BlockSize(tag - 1), bs)) == Counting(bs)
  {
    hide ArrayOf, Counting;
    ArrayImage(Raw(BlockSize(tag - 1)), BlockSize(tag - 1), bs, bs);
  }

  lemma TextsImage(v: Value)
    requires v.Texts?
    ensures FlatCodec(23).enc(v) == Counting(TextImages(v.texts))
  {
    hide ArrayOf, Counting;
    ArrayImage(TextCodec(), 1, v.texts, TextImages(v.texts));
  }

  // ---- values that hold others --------------------------------------------------------------

  function NameBytes(name: SmallString): seq<Byte> {
    [|name|] + name
  }

  /** A field: the length of its name, the name, and the value with its type byte. */
  function NamedBytes(depth: nat, x: Named<Value>): seq<Byte> {
    NameBytes(x.0) + ValueCodec(depth).enc(x.1)
  }

  lemma NamedLayout(depth: nat, x: Named<Value>)
    ensures NamedValue(ValueCodec(depth)).enc(x) == NamedBytes(depth, x)
  {
    hide ValueCodec, SmallStringCodec;
    Layouts.Note(x.0);
    Layouts.Two(SmallStringCodec(), ValueCodec(depth), x.0, x.1);
  }

  function NamedImages(depth: nat, fs: Fields): (images: seq<seq<Byte>>)
    ensures |images| == |fs|
  {
    seq(|fs|, i requires 0 <= i < |fs| => NamedBytes(depth, fs[i]))
  }

  lemma FieldsLayout(depth: nat, fs: Fields)
    ensures FieldList(ValueCodec(depth)).enc(fs) == Counting(NamedImages(depth, fs))
    ensures Listed(NamedValue(ValueCodec(depth))).enc(fs) == Counting(NamedImages(depth, fs))
  {
    hide ValueCodec, NamedValue, ArrayOf, Listed, Counting, NamedBytes;
    var c := NamedValue(ValueCodec(depth));
    forall i | 0 <= i < |fs| ensures NamedImages(depth, fs)[i] == c.enc(fs[i]) { NamedLayout(depth, fs[i]); }
    ArrayImage(c, 1, fs, NamedImages(depth, fs));
  }

  /** A pointer and the value behind it; an empty array of values stands for the null pointer. */
  lemma PointerLayout(depth: nat, inner: Value)
    ensures ValueCodec(depth + 1).enc(Dynamic(inner)) == [0] + ValueCodec(depth).enc(inner)
    ensures ValueCodec(depth + 1).enc(Nothing) == [0, 1, 0, 0, 0, 0]
  {
    hide ValueCodec;
    Typed(depth + 1, Dynamic(inner));
    Typed(depth + 1, Nothing);
    ValuesLayout(depth, []);
  }

  function ItemImages(depth: nat, items: seq<Value>): seq<seq<Byte>> {
    seq(|items|, i requires 0 <= i < |items| => ValueCodec(depth).enc(items[i]))
  }

  /** An array of values, each with its type byte. */
  lemma ValuesLayout(depth: nat, items: seq<Value>)
    ensures depth > 0 ==> ValueCodec(depth).enc(Values(items)) == [1] + Counting(ItemImages(depth - 1, items))
    ensures ValueCodec(depth).enc(Values([])) == [1, 0, 0, 0, 0]
  {
    hide ValueCodec, ArrayOf, Counting, LittleEndian, StructBy, StructOf, SelfDescribed, SchemaCodec, FlatCodec, RecordsBy;
    Typed(depth, Values(items));
    Typed(depth, Values([]));
    EmptyCount();
    if depth > 0 { ArrayImage(Inner(depth), 1, items, ItemImages(depth - 1, items)); }
    ArrayImage(Inner(depth), 1, [], []);
  }

  lemma EmptyCount()
    ensures Counting([]) == [0, 0, 0, 0]
  {
  }

  /** A struct without a schema: the number of fields and the fields in name order. */
  lemma StructLayout(depth: nat, fs: Fields)
    ensures ValueCodec(depth + 1).enc(Record(fs)) == [4] + Counting(NamedImages(depth, Sort(fs)))
  {
    hide ValueCodec, StructOf, Counting, NamedImages;
    Typed(depth + 1, Record(fs));
    SortedLayout(depth, fs);
  }

  lemma SortedLayout(depth: nat, fs: Fields)
    ensures StructOf(ValueCodec(depth)).enc(fs) == Counting(NamedImages(depth, Sort(fs)))
  {
    hide ValueCodec, FieldList, Counting, Sort, NamedImages;
    FieldsLayout(depth, Sort(fs));
  }

  function PlainImages(depth: nat, rows: seq<Fields>): (images: seq<seq<Byte>>)
    ensures |images| == |rows|
  {
    seq(|rows|, i requires 0 <= i < |rows| => Counting(NamedImages(depth, Sort(rows[i]))))
  }

  function RowImages(depth: nat, s: Schema, rows: seq<Fields>): (images: seq<seq<Byte>>)
    ensures |images| == |rows|
  {
    seq(|rows|, i requires 0 <= i < |rows| => StructBy(depth, s).enc(rows[i]))
  }

  /** An array of structs that carries its schema behind the count; without schema fields it carries none,
      and its structs are written as they would be without a schema. */
  lemma StructsLayout(depth: nat, s: Schema, rows: seq<Fields>)
    ensures ValueCodec(depth + 1).enc(Records(s, rows)) ==
      [5] + LittleEndian(|rows|, 4) +
      if s.fields == [] then Spliced(PlainImages(depth, rows)) else SchemaCodec(depth + 1).enc(s) + Spliced(RowImages(depth, s, rows))
  {
    hide ValueCodec, FieldList, Counting, Sort, NamedImages, SchemaCodec, StructBy, EncAll, LittleEndian, Spliced, Images;
    Typed(depth + 1, Records(s, rows));
    if s.fields == [] {
      var plain := StructOf(ValueCodec(depth));
      AllSpliced(plain, rows);
      forall i | 0 <= i < |rows| ensures PlainImages(depth, rows)[i] == plain.enc(rows[i]) { SortedLayout(depth, rows[i]); }
      assert PlainImages(depth, rows) == Images(plain, rows);
    } else {
      AllSpliced(StructBy(depth, s), rows);
      assert RowImages(depth, s, rows) == Images(StructBy(depth, s), rows);
    }
  }

  // ---- schemas ------------------------------------------------------------------------------

  /** A schema field: the length of its name, the name, its type byte, and for a struct or an array of structs
      the schema of those. */
  function TypeBytes(depth: nat, x: Named<FieldType>): seq<Byte> {
    hide SchemaCodec;
    NameBytes(x.0) + [x.1.tag] + if (x.1.tag == 4 || x.1.tag == 5) && depth > 0 then SchemaCodec(depth - 1).enc(x.1.structure) else []
  }

  function TypeImages(depth: nat, fs: seq<Named<FieldType>>): (images: seq<seq<Byte>>)
    ensures |images| == |fs|
  {
    seq(|fs|, i requires 0 <= i < |fs| => TypeBytes(depth, fs[i]))
  }

  lemma TypeLayout(depth: nat, x: Named<FieldType>)
    ensures NamedType(if depth == 0 then Bottom(5) else SchemaCodec(depth - 1)).enc(x) == TypeBytes(depth, x)
  {
    hide SchemaCodec, SmallStringCodec;
    var inner := if depth == 0 then Bottom(5) else SchemaCodec(depth - 1);
    Layouts.Note(x.0);
    Layouts.Two(SmallStringCodec(), TypeOf(inner), x.0, x.1);
  }

  /** The number of fields, the fields, and the flags. */
  lemma SchemaLayout(depth: nat, s: Schema)
    ensures SchemaCodec(depth).enc(s) == Counting(TypeImages(depth, s.fields)) + [s.flags]
  {
    hide NamedType, ArrayOf, Counting, TypeBytes, U8Codec, SchemaAround;
    var inner := if depth == 0 then Bottom(5) else SchemaCodec(depth - 1);
    assert SchemaCodec(depth) == SchemaAround(inner);
    Layouts.Tag(s.flags);
    forall i | 0 <= i < |s.fields| ensures TypeImages(depth, s.fields)[i] == NamedType(inner).enc(s.fields[i]) { TypeLayout(depth, s.fields[i]); }
    ArrayImage(NamedType(inner), 1, s.fields, TypeImages(depth, s.fields));
    AroundLayout(inner, s);
  }

  lemma AroundLayout(inner: Codec<Schema>, s: Schema)
    ensures SchemaAround(inner).enc(s) == ArrayOf(NamedType(inner), 1).enc(s.fields) + U8Codec().enc(s.flags)
  {
    hide NamedType, ArrayOf, U8Codec;
    Layouts.Two(ArrayOf(NamedType(inner), 1), U8Codec(), s.fields, s.flags);
  }

  // ---- structs under a schema ---------------------------------------------------------------

  /** What stands for a field that is missing or of another type. */
  function ZeroBytes(depth: nat, f: FieldType): seq<Byte> {
    if f.tag == 0 then [1, 0, 0, 0, 0]
    else if f.tag == 4 && f.structure.fields != [] then StructBy(depth, f.structure).enc([])
    else if f.tag == 6 || f.tag == 14 || f.tag == 22 then [0]
    else if f.tag == 8 then [0, 0]
    else if f.tag == 12 then [0, 0, 0, 0, 0, 0, 0, 0]
    else if f.tag == 16 then seq(16, _ => 0)
    else if f.tag == 18 then seq(32, _ => 0)
    else if f.tag == 20 then seq(64, _ => 0)
    else if f.tag < 24 then [0, 0, 0, 0]
    else []
  }

  /** A value at the type asked for is written without its type byte. */
  lemma PayloadLayout(depth: nat, f: FieldType, v: Value)
    requires TagOf(v) == f.tag && f.structure.fields == []
    ensures ValueCodec(depth).enc(v) == [f.tag] + Payload(depth, f).enc(v)
  {
    hide ValueCodec, StructBy, FlatCodec;
    Typed(depth, v);
  }

  /** A struct, or an array of structs, whose schema is known to the reader. */
  lemma RecordLayout(depth: nat, s: Schema, fs: Fields, rows: seq<Fields>, other: Schema)
    requires s.fields != []
    ensures Payload(depth, FieldType(4, s)).enc(Record(fs)) == StructBy(depth, s).enc(fs)
    ensures Payload(depth, FieldType(5, s)).enc(Records(other, rows)) == Counting(RowImages(depth, s, rows))
  {
    hide StructBy, ArrayOf, Counting, ValueCodec, StructOf, SelfDescribed, SchemaCodec, FlatCodec, DynamicOf, ItemsOf;
    ArrayImage(StructBy(depth, s), 1, rows, RowImages(depth, s, rows));
  }

  /** Missing fields and mistyped ones are written as zeros. */
  lemma ZeroLayout(depth: nat, f: FieldType)
    requires depth > 0
    ensures Payload(depth, f).enc(ZeroOf(f.tag)) == ZeroBytes(depth, f)
    ensures forall v :: TagOf(v) != f.tag ==> Payload(depth, f).enc(v) == ZeroBytes(depth, f)
  {
    hide StructBy, FlatCodec, ArrayOf, ValueCodec, SchemaCodec, StructOf, SelfDescribed;
    assert TagOf(ZeroOf(f.tag)) == f.tag || f.tag > 23;
    assert Payload(depth, f).enc(ZeroOf(f.tag)) == Core(depth, f).enc(ZeroOf(f.tag));
    if f.tag == 0 {
      ValuesLayout(depth - 1, []);
    } else if f.tag == 1 || f.tag == 4 || f.tag == 5 {
      EmptyLists(depth, f);
    } else {
      FlatZero(f.tag);
    }
  }

  lemma EmptyLists(depth: nat, f: FieldType)
    requires depth > 0 && (f.tag == 1 || f.tag == 4 || f.tag == 5)
    ensures Core(depth, f).enc(ZeroOf(f.tag)) == ZeroBytes(depth, f)
  {
    hide ValueCodec, StructBy, ArrayOf, StructOf, SchemaCodec, Counting, EncAll, LittleEndian, NamedImages, FlatCodec;
    EmptyCount();
    if f.tag == 1 {
      ArrayImage(Inner(depth), 1, [], []);
    } else if f.tag == 4 {
      if f.structure.fields == [] { NoFieldsZero(depth); }
    } else if f.structure.fields != [] {
      ArrayImage(StructBy(depth, f.structure), 1, [], []);
    } else {
      NoRowsZero(StructOf(ValueCodec(depth - 1)));
    }
  }

  lemma NoFieldsZero(depth: nat)
    requires depth > 0
    ensures StructOf(ValueCodec(depth - 1)).enc([]) == [0, 0, 0, 0]
  {
    hide StructOf, ValueCodec, NamedBytes;
    SortedLayout(depth - 1, []);
    EmptyCount();
  }

  lemma NoRowsZero(plain: Codec<Fields>)
    ensures LittleEndian(0, 4) + EncAll(plain, []) == [0, 0, 0, 0]
  {
    EmptyCount();
  }

  lemma FlatZero(tag: Byte)
    requires tag != 0 && tag != 1 && tag != 4 && tag != 5
    ensures FlatCodec(tag).enc(ZeroOf(tag)) == ZeroBytes(0, Untyped(tag))
  {
    hide StructBy, FlatCodec, Counting;
    EmptyCount();
    if tag == 2 {
      BytesImage([]);
      assert LittleEndian(0, 4) == [0, 0, 0, 0];
    } else if NumberSize(tag) > 0 {
      WholeImage(tag, 0);
      ZeroNumber();
    } else if tag == 14 {
      WideImage(seq(32, _ => 0));
      ZeroWord();
    } else if BlockSize(tag) > 0 {
      BlockImage(tag, seq(BlockSize(tag), _ => 0));
    } else if tag == 22 {
      TextImage([]);
    } else if tag == 3 {
      ListsImage(ByteLists([]));
    } else if NumberSize(tag - 1) > 0 {
      WholesImage(tag, []);
    } else if tag == 15 {
      WidesImage(Wides([]));
    } else if BlockSize(tag - 1) > 0 {
      BlocksImage(tag, []);
    } else if tag == 23 {
      TextsImage(Texts([]));
    } else {
      NoFlat(tag);
    }
  }

  lemma ZeroNumber()
    ensures LittleEndian(0, 1) == [0] && LittleEndian(0, 2) == [0, 0] && LittleEndian(0, 4) == [0, 0, 0, 0]
    ensures LittleEndian(0, 8) == [0, 0, 0, 0, 0, 0, 0, 0]
  {
  }

  lemma ZeroWord()
    ensures WordImage(seq(32, _ => 0)) == [0]
  {
    NumberLayouts.WordVectors();
  }

  lemma NoFlat(tag: Byte)
    requires tag > 23
    ensures FlatCodec(tag).enc(Nothing) == []
  {
  }

  /** A field the schema lists, found or not. */
  function FieldBytes(depth: nat, x: Named<FieldType>, fs: Fields): seq<Byte> {
    match Find(fs, x.0)
    case Some(v) => if TagOf(v) == x.1.tag then Payload(depth, x.1).enc(v) else ZeroBytes(depth, x.1)
    case None => ZeroBytes(depth, x.1)
  }

  /** The fields in the order of the schema, without names and types; where the lowest flag is set, then the
      number of the other fields and those, named and typed. */
  lemma StructByLayout(depth: nat, s: Schema, fs: Fields)
    requires s.fields != [] && depth > 0 && Distinct(s.fields) && Distinct(fs)
    ensures StructBy(depth, s).enc(fs) ==
      Spliced(FieldImages(depth, s, fs)) + if s.flags % 2 == 1 then Counting(NamedImages(depth - 1, Extras(s, fs))) else []
  {
    hide Payload, Find, FieldBytes, ValueCodec, NamedValue, Listed, Counting, NamedImages, Extras, ExtrasWritten, EncRow, Distinct, StructBy, Row;
    var cs := RowCodecs(depth, s);
    StructByIs(depth, s);
    ListedFields(depth, s, fs);
    ShortcutIsSafe(s, fs);
    FieldsLayout(depth - 1, Extras(s, fs));
    if s.flags % 2 == 1 {
      Layouts.Two(Row(cs), Listed(NamedValue(Inner(depth))), FieldValues(s, fs), ExtrasWritten(s, fs));
    }
  }

  lemma ListedFields(depth: nat, s: Schema, fs: Fields)
    requires depth > 0
    ensures Row(RowCodecs(depth, s)).enc(FieldValues(s, fs)) == Spliced(FieldImages(depth, s, fs))
  {
    hide Payload, Find, FieldBytes, EncRow, Spliced;
    var cs := RowCodecs(depth, s);
    forall i | 0 <= i < |s.fields| ensures FieldImages(depth, s, fs)[i] == cs[i].enc(FieldValues(s, fs)[i]) {
      FieldLayout(depth, s.fields[i], fs);
    }
    RowSpliced(cs, FieldValues(s, fs), FieldImages(depth, s, fs));
  }

  function FieldImages(depth: nat, s: Schema, fs: Fields): (images: seq<seq<Byte>>)
    ensures |images| == |s.fields|
  {
    seq(|s.fields|, i requires 0 <= i < |s.fields| => FieldBytes(depth, s.fields[i], fs))
  }

  lemma FieldLayout(depth: nat, x: Named<FieldType>, fs: Fields)
    requires depth > 0
    ensures Payload(depth, x.1).enc(match Find(fs, x.0) { case Some(v) => v case None => ZeroOf(x.1.tag) }) == FieldBytes(depth, x, fs)
  {
    hide Payload, Find, ZeroOf, TagOf, ZeroBytes;
    ZeroLayout(depth, x.1);
  }

  // ---- the order of the fields --------------------------------------------------------------

  /** What the flags of a schema decide about a struct that was read: extra fields, and with them an order by
      name; without them the order of the schema where it is trusted to be sorted. */
  lemma FlagsDecide(s: Schema, vs: seq<Value>, extras: Fields)
    requires |vs| == |s.fields|
    ensures
      var own: Fields := seq(|vs|, i requires 0 <= i < |vs| => (s.fields[i].0, vs[i]));
      Assemble(s, vs, extras) ==
        match s.flags % 4
        case 0 => Sort(own)
        case 2 => own
        case _ => Sort(own + extras)
  {
    hide Sort;
    var own: Fields := seq(|vs|, i requires 0 <= i < |vs| => (s.fields[i].0, vs[i]));
    assert Zip(s.fields, vs) == own;
  }

  // ---- a vector -----------------------------------------------------------------------------

  function Plain(name: SmallString, tag: U8): Named<FieldType> {
    (name, FieldType(tag, EMPTY_SCHEMA))
  }

  function SeriesFields(): seq<Named<FieldType>> {
    [Plain([0x5F, 0x69], 14),
     Plain([0x6D, 0x6F, 0x64, 0x65], 6),
     Plain([0x72, 0x6F, 0x6D], 2)]
  }

  function RomFields(): seq<Named<FieldType>> {
    [Plain([0x5F, 0x69], 14),
     Plain([0x72, 0x6F, 0x6D], 2),
     Plain([0x6E, 0x61, 0x6D, 0x65], 22),
     Plain([0x64, 0x65, 0x73, 0x63, 0x72, 0x69, 0x70, 0x74, 0x69, 0x6F, 0x6E], 22),
     Plain([0x69, 0x6D, 0x61, 0x67, 0x65, 0x55, 0x52, 0x4C], 22),
     Plain([0x69, 0x6E, 0x66, 0x6F, 0x55, 0x52, 0x4C], 22),
     Plain([0x72, 0x6F, 0x79, 0x61, 0x6C, 0x74, 0x69, 0x65, 0x73], 10)]
  }

  /** The schemas of a series, of the read-only data of an instance, and of data without fields. */
  lemma VectorSchemas()
    ensures SchemaCodec(0).enc(Schema(SeriesFields(), 0)) ==
      [3, 0, 0, 0] + ([0x02, 0x5F, 0x69, 0x0E] +
      [0x04, 0x6D, 0x6F, 0x64, 0x65, 0x06] +
      [0x03, 0x72, 0x6F, 0x6D, 0x02]) + [0]
    ensures SchemaCodec(0).enc(Schema(RomFields(), 0)) ==
      [7, 0, 0, 0] + ([0x02, 0x5F, 0x69, 0x0E] +
      [0x03, 0x72, 0x6F, 0x6D, 0x02] +
      [0x04, 0x6E, 0x61, 0x6D, 0x65, 0x16] +
      [0x0B, 0x64, 0x65, 0x73, 0x63, 0x72, 0x69, 0x70, 0x74, 0x69, 0x6F, 0x6E, 0x16] +
      [0x08, 0x69, 0x6D, 0x61, 0x67, 0x65, 0x55, 0x52, 0x4C, 0x16] +
      [0x07, 0x69, 0x6E, 0x66, 0x6F, 0x55, 0x52, 0x4C, 0x16] +
      [0x09, 0x72, 0x6F, 0x79, 0x61, 0x6C, 0x74, 0x69, 0x65, 0x73, 0x0A]) + [0]
    ensures SchemaCodec(0).enc(Schema([], 1)) == [0, 0, 0, 0, 1]
  {
    hide SchemaCodec, SeriesFields, RomFields, TypeImages, Spliced, LittleEndian;
    SchemaLayout(0, Schema(SeriesFields(), 0));
    SchemaLayout(0, Schema(RomFields(), 0));
    SchemaLayout(0, Schema([], 1));
    TypesSpelled(SeriesFields());
    TypesSpelled(RomFields());
    SeriesSpelled();
    RomSpelled();
    EmptyCount();
    FewCounts();
  }

  lemma FewCounts()
    ensures LittleEndian(3, 4) == [3, 0, 0, 0] && LittleEndian(7, 4) == [7, 0, 0, 0]
  {
  }

  lemma SpelledNext(x: Named<FieldType>, fs: seq<Named<FieldType>>)
    ensures Spelled([x] + fs) == [|x.0|] + x.0 + [x.1.tag] + Spelled(fs)
  {
    assert ([x] + fs)[1..] == fs;
  }

  lemma SeriesSpelled()
    ensures |SeriesFields()| == 3 && Spelled(SeriesFields()) ==
      [0x02, 0x5F, 0x69, 0x0E] +
      [0x04, 0x6D, 0x6F, 0x64, 0x65, 0x06] +
      [0x03, 0x72, 0x6F, 0x6D, 0x02]
  {
    hide Spelled;
    var fs := SeriesFields();
    NoneSpelled();
    SpelledNext(fs[2], fs[3..]);
    assert fs[2..] == [fs[2]] + fs[3..];
    SpelledNext(fs[1], fs[2..]);
    assert fs[1..] == [fs[1]] + fs[2..];
    SpelledNext(fs[0], fs[1..]);
    assert fs[0..] == [fs[0]] + fs[1..];
  }

  lemma RomSpelled()
    ensures |RomFields()| == 7 && Spelled(RomFields()) ==
      [0x02, 0x5F, 0x69, 0x0E] +
      [0x03, 0x72, 0x6F, 0x6D, 0x02] +
      [0x04, 0x6E, 0x61, 0x6D, 0x65, 0x16] +
      [0x0B, 0x64, 0x65, 0x73, 0x63, 0x72, 0x69, 0x70, 0x74, 0x69, 0x6F, 0x6E, 0x16] +
      [0x08, 0x69, 0x6D, 0x61, 0x67, 0x65, 0x55, 0x52, 0x4C, 0x16] +
      [0x07, 0x69, 0x6E, 0x66, 0x6F, 0x55, 0x52, 0x4C, 0x16] +
      [0x09, 0x72, 0x6F, 0x79, 0x61, 0x6C, 0x74, 0x69, 0x65, 0x73, 0x0A]
  {
    hide Spelled;
    var fs := RomFields();
    RomTexts();
    SpelledNext(fs[1], fs[2..]);
    assert fs[1..] == [fs[1]] + fs[2..];
    SpelledNext(fs[0], fs[1..]);
    assert fs[0..] == [fs[0]] + fs[1..];
  }

  lemma RomTexts()
    ensures |RomFields()| == 7 && Spelled(RomFields()[2..]) ==
      [0x04, 0x6E, 0x61, 0x6D, 0x65, 0x16] +
      [0x0B, 0x64, 0x65, 0x73, 0x63, 0x72, 0x69, 0x70, 0x74, 0x69, 0x6F, 0x6E, 0x16] +
      [0x08, 0x69, 0x6D, 0x61, 0x67, 0x65, 0x55, 0x52, 0x4C, 0x16] +
      [0x07, 0x69, 0x6E, 0x66, 0x6F, 0x55, 0x52, 0x4C, 0x16] +
      [0x09, 0x72, 0x6F, 0x79, 0x61, 0x6C, 0x74, 0x69, 0x65, 0x73, 0x0A]
  {
    hide Spelled;
    var fs := RomFields();
    RomEnd();
    SpelledNext(fs[4], fs[5..]);
    assert fs[4..] == [fs[4]] + fs[5..];
    SpelledNext(fs[3], fs[4..]);
    assert fs[3..] == [fs[3]] + fs[4..];
    SpelledNext(fs[2], fs[3..]);
    assert fs[2..] == [fs[2]] + fs[3..];
  }

  lemma RomEnd()
    ensures |RomFields()| == 7 && Spelled(RomFields()[5..]) ==
      [0x07, 0x69, 0x6E, 0x66, 0x6F, 0x55, 0x52, 0x4C, 0x16] +
      [0x09, 0x72, 0x6F, 0x79, 0x61, 0x6C, 0x74, 0x69, 0x65, 0x73, 0x0A]
  {
    hide Spelled;
    var fs := RomFields();
    NoneSpelled();
    SpelledNext(fs[6], fs[7..]);
    assert fs[6..] == [fs[6]] + fs[7..];
    SpelledNext(fs[5], fs[6..]);
    assert fs[5..] == [fs[5]] + fs[6..];
  }

  lemma NoneSpelled()
    ensures Spelled([]) == []
  {
  }

  function Spelled(fs: seq<Named<FieldType>>): seq<Byte> {
    if fs == [] then [] else NameBytes(fs[0].0) + [fs[0].1.tag] + Spelled(fs[1..])
  }

  lemma {:induction false} TypesSpelled(fs: seq<Named<FieldType>>)
    ensures Spliced(TypeImages(0, fs)) == Spelled(fs)
  {
    if fs != [] {
      TypesSpelled(fs[1..]);
      assert TypeImages(0, fs)[1..] == TypeImages(0, fs[1..]);
    }
  }
}
