/** The writers of dynamic values: each appends to the buffer part by part and produces the wire form,
    whether or not the value can be read back. The depth is not part of the program. */
module VmWriters {
  import opened Wrappers
  import opened Words64
  import opened Codecs
  import opened WireFormat
  import opened IntX
  import opened IntXViews
  import opened Views
  import opened FaithfulCodecs
  import opened VmNames
  import opened VmValues
  import opened VmFlat
  import opened VmSchemas
  import opened VmStructs
  import opened VmCodec
  import opened VmViews

  // ---- what the writer is given -------------------------------------------------------------

  /** Nested no deeper than the bound. */
  predicate SchemaWithin(s: Schema, depth: nat) {
    forall i :: 0 <= i < |s.fields| && HasStructure(s.fields[i].1.tag) ==> depth > 0 && SchemaWithin(s.fields[i].1.structure, depth - 1)
  }

  /** Nested no deeper than the bound, with sorted fields wherever they are looked up by name. */
  ghost predicate Within(v: Value, f: FieldType, depth: nat)
    decreases depth, f
  {
    var x := Standing(v, f.tag);
    match x
    case Nothing => f.tag == DYNAMIC ==> depth > 0
    case Dynamic(y) => depth > 0 && Within(y, Untyped(TagOf(y)), depth - 1)
    case Values(ys) => depth > 0 && forall i :: 0 <= i < |ys| ==> Within(ys[i], Untyped(TagOf(ys[i])), depth - 1)
    case Record(fs) =>
      if f.structure.fields != [] then WithinBy(fs, f.structure, depth) else depth > 0 && FieldsWithin(fs, depth - 1)
    case Records(s, rows) =>
      if f.structure.fields != [] then forall i :: 0 <= i < |rows| ==> WithinBy(rows[i], f.structure, depth)
      else if s.fields != [] then depth > 0 && SchemaWithin(s, depth) && forall i :: 0 <= i < |rows| ==> WithinBy(rows[i], s, depth - 1)
      else depth > 0 && forall i :: 0 <= i < |rows| ==> FieldsWithin(rows[i], depth - 1)
    case _ => true
  }

  ghost predicate FieldsWithin(fs: Fields, depth: nat)
    decreases depth
  {
    forall i :: 0 <= i < |fs| ==> Within(fs[i].1, Untyped(TagOf(fs[i].1)), depth)
  }

  ghost predicate WithinBy(fs: Fields, s: Schema, depth: nat)
    decreases depth, s
  {
    && Sorted(fs)
    && (forall i :: 0 <= i < |s.fields| ==> Within(FieldValues(s, fs)[i], s.fields[i].1, depth))
    && (AllowsExtras(s) ==> depth > 0 && FieldsWithin(fs, depth - 1))
  }

  // ---- flat values --------------------------------------------------------------------------

  method WriteText(t: seq<Byte>, w: WriteView)
    modifies w
    ensures w.m == old(w.m) + TextCodec().enc(t)
  {
    w.WriteBytes(t);
    w.WriteByte(0);
  }

  method WriteOne(v: Value, tag: int, w: WriteView)
    requires TagOf(v) == tag
    modifies w
    ensures w.m == old(w.m) + OneFlat(tag).enc(v)
  {
    hide LittleEndian, WordImage, Counted;
    match v {
      case Bytes(b) => WriteCounted(b, w);
      case Whole(size, n) => if NumberSize(tag) > 0 { WriteWord(n, size, w); }
      case Wide(x) => WriteWord256(x, w);
      case Block(width, b) => if BlockSize(tag) > 0 { w.WriteBytes(b); }
      case Text(t) => WriteText(t, w);
      case _ =>
    }
  }

  method WriteByteLists(items: seq<seq<Byte>>, w: WriteView)
    modifies w
    ensures w.m == old(w.m) + ArrayOf(Counted(), 4).enc(items)
  {
    hide EncAll, LittleEndian, Counted;
    WriteWord(|items|, 4, w);
    ghost var start := w.m;
    var i: nat := 0;
    EncNone(Counted(), items);
    while i != |items|
      invariant i <= |items| && w.m == start + EncAll(Counted(), items[..i])
    {
      EncUpTo(Counted(), items, i);
      WriteCounted(items[i], w);
      i := i + 1;
    }
    assert items[..i] == items;
  }

  method WriteWholes(size: nat, items: seq<nat>, w: WriteView)
    modifies w
    ensures w.m == old(w.m) + ArrayOf(WholeCodec(size), size).enc(items)
  {
    hide EncAll, LittleEndian, WholeCodec;
    WriteWord(|items|, 4, w);
    ghost var start := w.m;
    var i: nat := 0;
    EncNone(WholeCodec(size), items);
    while i != |items|
      invariant i <= |items| && w.m == start + EncAll(WholeCodec(size), items[..i])
    {
      EncUpTo(WholeCodec(size), items, i);
      WriteWord(items[i], size, w);
      WholeImage(items[i], size);
      i := i + 1;
    }
    assert items[..i] == items;
  }

  method WriteWides(items: seq<Word256>, w: WriteView)
    modifies w
    ensures w.m == old(w.m) + ArrayOf(Word256Codec(), 1).enc(items)
  {
    hide EncAll, LittleEndian, Word256Codec, WordImage;
    WriteWord(|items|, 4, w);
    ghost var start := w.m;
    var i: nat := 0;
    EncNone(Word256Codec(), items);
    while i != |items|
      invariant i <= |items| && w.m == start + EncAll(Word256Codec(), items[..i])
    {
      EncUpTo(Word256Codec(), items, i);
      WriteWord256(items[i], w);
      WideImage(items[i]);
      i := i + 1;
    }
    assert items[..i] == items;
  }

  method WriteBlocks(width: nat, items: seq<seq<Byte>>, w: WriteView)
    modifies w
    ensures w.m == old(w.m) + ArrayOf(Raw(width), width).enc(items)
  {
    hide EncAll, LittleEndian;
    WriteWord(|items|, 4, w);
    ghost var start := w.m;
    var i: nat := 0;
    EncNone(Raw(width), items);
    while i != |items|
      invariant i <= |items| && w.m == start + EncAll(Raw(width), items[..i])
    {
      EncUpTo(Raw(width), items, i);
      w.WriteBytes(items[i]);
      i := i + 1;
    }
    assert items[..i] == items;
  }

  method WriteTexts(items: seq<seq<Byte>>, w: WriteView)
    modifies w
    ensures w.m == old(w.m) + ArrayOf(TextCodec(), 1).enc(items)
  {
    hide EncAll, LittleEndian, TextCodec;
    WriteWord(|items|, 4, w);
    ghost var start := w.m;
    var i: nat := 0;
    EncNone(TextCodec(), items);
    while i != |items|
      invariant i <= |items| && w.m == start + EncAll(TextCodec(), items[..i])
    {
      EncUpTo(TextCodec(), items, i);
      WriteText(items[i], w);
      i := i + 1;
    }
    assert items[..i] == items;
  }

  lemma WideImage(x: Word256)
    ensures Word256Codec().enc(x) == WordImage(x)
  {
    hide WordImage;
  }

  lemma WholeImage(n: nat, size: nat)
    ensures WholeCodec(size).enc(n) == LittleEndian(n, size)
  {
  }

  method WriteMany(v: Value, tag: int, w: WriteView)
    requires TagOf(v) == tag
    modifies w
    ensures w.m == old(w.m) + ManyFlat(tag).enc(v)
  {
    hide LittleEndian, WordImage, ArrayOf, WholeCodec, TextCodec, Counted, Word256Codec;
    match v {
      case ByteLists(bs) => WriteByteLists(bs, w);
      case Wholes(size, ns) => if NumberSize(tag - 1) > 0 { WriteWholes(size, ns, w); }
      case Wides(xs) => WriteWides(xs, w);
      case Blocks(width, bs) => if BlockSize(tag - 1) > 0 { WriteBlocks(width, bs, w); }
      case Texts(ts) => WriteTexts(ts, w);
      case _ =>
    }
  }

  /** Nothing is written for a type byte that names no type. */
  method WriteFlat(v: Value, tag: Byte, w: WriteView)
    requires TagOf(v) == tag || FlatUnknown(tag)
    modifies w
    ensures w.m == old(w.m) + FlatCodec(tag).enc(v)
  {
    hide OneFlat, ManyFlat;
    if TagOf(v) != tag {
      UnknownImage(v, tag);
    } else if tag % 2 == 0 {
      WriteOne(v, tag, w);
    } else {
      WriteMany(v, tag, w);
    }
  }

  /** The type bytes that name no flat type. */
  predicate FlatUnknown(tag: Byte) {
    && tag !in {BYTES, INT256, STRING, ARRAY_BYTES, ARRAY_INT256, ARRAY_STRING}
    && NumberSize(tag) == 0 && BlockSize(tag) == 0 && NumberSize(tag - 1) == 0 && BlockSize(tag - 1) == 0
  }

  lemma UnknownImage(v: Value, tag: Byte)
    requires FlatUnknown(tag)
    ensures FlatCodec(tag).enc(v) == []
  {
  }

  lemma StandingTag(v: Value, tag: Byte)
    ensures TagOf(Standing(v, tag)) == tag || (FlatUnknown(tag) && !HasStructure(tag) && tag !in {DYNAMIC, ARRAY})
  {
  }

  // ---- schemas ------------------------------------------------------------------------------

  method WriteType(f: FieldType, w: WriteView, ghost depth: nat)
    requires HasStructure(f.tag) ==> depth > 0 && SchemaWithin(f.structure, depth - 1)
    modifies w
    ensures w.m == old(w.m) + TypeOf(InnerSchema(depth)).enc(f)
    decreases depth, 0
  {
    hide SchemaCodec;
    w.WriteByte(f.tag);
    if HasStructure(f.tag) {
      WriteSchema(f.structure, w, depth - 1);
    }
  }

  method WriteNamedType(x: Named<FieldType>, w: WriteView, ghost depth: nat)
    requires HasStructure(x.1.tag) ==> depth > 0 && SchemaWithin(x.1.structure, depth - 1)
    modifies w
    ensures w.m == old(w.m) + NamedType(InnerSchema(depth)).enc(x)
    decreases depth, 1
  {
    hide SmallStringCodec, TypeOf, Pair, SchemaWithin, InnerSchema;
    PairImage(SmallStringCodec(), TypeOf(InnerSchema(depth)), x.0, x.1, w.m);
    WriteSmallString(x.0, w);
    WriteType(x.1, w, depth);
  }

  method WriteSchema(s: Schema, w: WriteView, ghost depth: nat)
    requires SchemaWithin(s, depth)
    modifies w
    ensures w.m == old(w.m) + SchemaCodec(depth).enc(s)
    decreases depth, 2
  {
    hide EncAll, NamedType, LittleEndian, U8Codec, SchemaCodec, InnerSchema;
    ghost var c, before := NamedType(InnerSchema(depth)), w.m;
    WriteWord(|s.fields|, 4, w);
    ghost var start := w.m;
    var i: nat := 0;
    EncNone(c, s.fields);
    while i != |s.fields|
      invariant i <= |s.fields| && w.m == start + EncAll(c, s.fields[..i])
    {
      WriteNamedType(s.fields[i], w, depth);
      EncUpTo(c, s.fields, i);
      i := i + 1;
    }
    assert s.fields[..i] == s.fields;
    ghost var listed := w.m;
    WriteU8(s.flags, w);
    SchemaImage(depth, s, before);
    assert listed == before + LittleEndian(|s.fields|, 4) + EncAll(c, s.fields);
  }

  lemma SchemaImage(depth: nat, s: Schema, m: seq<Byte>)
    ensures m + SchemaCodec(depth).enc(s) == m + LittleEndian(|s.fields|, 4) + EncAll(NamedType(InnerSchema(depth)), s.fields) + U8Codec().enc(s.flags)
  {
    hide EncAll, NamedType, LittleEndian, U8Codec, Pair;
    var inner := InnerSchema(depth);
    assert SchemaCodec(depth) == SchemaAround(inner);
    PairImage(ArrayOf(NamedType(inner), 1), U8Codec(), s.fields, s.flags, m);
    Appended(m, LittleEndian(|s.fields|, 4), EncAll(NamedType(inner), s.fields));
  }

  // ---- values -------------------------------------------------------------------------------

  /** What the writer answers for a payload; for a struct under a schema, whether it found every field. */
  predicate Answers(v: Value, f: FieldType) {
    && TagOf(v) == f.tag && (HasStructure(f.tag) || f.tag in {DYNAMIC, ARRAY} || !FlatUnknown(f.tag))
    && (f.tag == STRUCT && f.structure.fields != [] ==> v.Record? && HasAll(f.structure, v.fields))
  }

  method WriteVariable(v: Value, w: WriteView, ghost depth: nat)
    requires Within(v, Untyped(TagOf(v)), depth)
    modifies w
    ensures w.m == old(w.m) + ValueCodec(depth).enc(v)
    decreases 2 * depth
  {
    hide Within, Payload, ValueCodec;
    w.WriteByte(TagOf(v));
    var ok := WritePayload(v, Untyped(TagOf(v)), w, depth);
    ValueImage(depth, v, old(w.m));
  }

  lemma PayloadImage(depth: nat, f: FieldType, v: Value)
    ensures Payload(depth, f).enc(v) == Core(depth, f).enc(Standing(v, f.tag))
  {
    hide Core;
  }

  /** Writes a value at the type asked for, or a zero of that type in its place. */
  method WritePayload(v: Value, f: FieldType, w: WriteView, ghost depth: nat) returns (ok: bool)
    requires Within(v, f, depth)
    modifies w
    ensures w.m == old(w.m) + Payload(depth, f).enc(v)
    ensures ok == Answers(v, f)
    decreases 2 * depth, f
  {
    hide Payload, Core, ZeroOf, HasAll;
    PayloadImage(depth, f, v);
    StandingAgain(v, f, depth);
    hide Within;
    if TagOf(v) != f.tag {
      var zeroed := WriteCore(ZeroOf(f.tag), f, w, depth);
      return false;
    }
    ok := WriteCore(v, f, w, depth);
  }

  lemma StandingAgain(v: Value, f: FieldType, depth: nat)
    requires Within(v, f, depth)
    ensures Within(Standing(v, f.tag), f, depth) && Standing(Standing(v, f.tag), f.tag) == Standing(v, f.tag)
  {
    hide ZeroOf;
  }

  /** The switch over the type. */
  method WriteCore(x: Value, f: FieldType, w: WriteView, ghost depth: nat) returns (ok: bool)
    requires Standing(x, f.tag) == x && Within(x, f, depth)
    modifies w
    ensures w.m == old(w.m) + Core(depth, f).enc(x)
    ensures TagOf(x) == f.tag ==> ok == Answers(x, f)
    decreases 2 * depth, f, 1
  {
    hide ValueCodec, StructBy, StructOf, ItemsOf, RecordOf, RecordsBy, SelfDescribed, FlatCodec, Core, FieldsWithin, WithinBy, SchemaWithin, HasAll;
    CoreEnc(depth, f, x);
    StandingTag(x, f.tag);
    hide ZeroOf;
    ok := true;
    if f.tag == DYNAMIC {
      WritePointer(x, f, w, depth);
    } else if f.tag == ARRAY {
      WriteVariables(x.items, w, depth - 1);
    } else if f.tag == STRUCT {
      if f.structure.fields != [] {
        ok := WriteStructBy(f.structure, x.fields, w, depth);
      } else {
        WriteFields(x.fields, w, depth - 1);
      }
    } else if f.tag == ARRAY_STRUCT {
      WriteRecords(x, f, w, depth);
    } else {
      WriteFlat(x, f.tag, w);
      ok := !FlatUnknown(f.tag);
    }
  }

  /** The value behind a pointer, or an empty array of values for a null one. */
  method WritePointer(x: Value, f: FieldType, w: WriteView, ghost depth: nat)
    requires f.tag == DYNAMIC && TagOf(x) == DYNAMIC && Within(x, f, depth)
    modifies w
    ensures w.m == old(w.m) + Core(depth, f).enc(x)
    decreases 2 * depth, f, 0
  {
    hide ValueCodec, Core;
    ghost var before := w.m;
    CoreEnc(depth, f, x);
    if x.Dynamic? {
      WriteVariable(x.inner, w, depth - 1);
    } else {
      w.WriteByte(ARRAY);
      WriteWord(0, 4, w);
      NullPointer(depth, before);
    }
  }

  lemma CoreEnc(depth: nat, f: FieldType, x: Value)
    ensures f.tag == DYNAMIC && depth > 0 ==> Core(depth, f).enc(x) == ValueCodec(depth - 1).enc(if x.Dynamic? then x.inner else Values([]))
    ensures f.tag == ARRAY && depth > 0 && x.Values? ==> Core(depth, f).enc(x) == ArrayOf(ValueCodec(depth - 1), 1).enc(x.items)
    ensures f.tag == STRUCT && f.structure.fields != [] && x.Record? ==> Core(depth, f).enc(x) == StructBy(depth, f.structure).enc(x.fields)
    ensures f.tag == STRUCT && f.structure.fields == [] && depth > 0 && x.Record? ==> Core(depth, f).enc(x) == StructOf(ValueCodec(depth - 1)).enc(x.fields)
    ensures f.tag !in {DYNAMIC, ARRAY, STRUCT, ARRAY_STRUCT} ==> Core(depth, f).enc(x) == FlatCodec(f.tag).enc(x)
  {
    hide ValueCodec, StructBy, StructOf, ArrayOf, FlatCodec, RecordsBy, SelfDescribed;
  }

  lemma EmptyValues(depth: nat)
    ensures Payload(depth, Untyped(ARRAY)).enc(Values([])) == LittleEndian(0, 4)
  {
    hide LittleEndian, ValueCodec;
    var f, inner := Untyped(ARRAY), Inner(depth);
    assert Core(depth, f) == ItemsOf(inner) by { hide ItemsOf; }
    PayloadImage(depth, f, Values([]));
    NoItems(inner);
    hide Core, Payload;
    assert ItemsOf(inner).enc(Values([])) == LittleEndian(0, 4) + [];
  }

  lemma ValueImage(depth: nat, v: Value, m: seq<Byte>)
    ensures m + ValueCodec(depth).enc(v) == m + [TagOf(v)] + Payload(depth, Untyped(TagOf(v))).enc(v)
  {
    hide Payload;
    Appended(m, [TagOf(v)], Payload(depth, Untyped(TagOf(v))).enc(v));
  }

  /** A null pointer is written as an empty array of values. */
  lemma NullPointer(depth: nat, m: seq<Byte>)
    requires depth > 0
    ensures m + ValueCodec(depth - 1).enc(Values([])) == m + [ARRAY] + LittleEndian(0, 4)
  {
    hide LittleEndian, Payload, ValueCodec;
    EmptyValues(depth - 1);
    ValueImage(depth - 1, Values([]), m);
  }

  method WriteVariables(items: seq<Value>, w: WriteView, ghost depth: nat)
    requires forall i :: 0 <= i < |items| ==> Within(items[i], Untyped(TagOf(items[i])), depth)
    modifies w
    ensures w.m == old(w.m) + ArrayOf(ValueCodec(depth), 1).enc(items)
    decreases 2 * depth + 1, 0
  {
    hide EncAll, ValueCodec, LittleEndian, Within;
    ghost var c := ValueCodec(depth);
    WriteWord(|items|, 4, w);
    ghost var start := w.m;
    var i: nat := 0;
    EncNone(c, items);
    while i != |items|
      invariant i <= |items| && w.m == start + EncAll(c, items[..i])
    {
      WriteVariable(items[i], w, depth);
      EncUpTo(c, items, i);
      i := i + 1;
    }
    assert items[..i] == items;
  }

  method WriteNamed(x: Named<Value>, w: WriteView, ghost depth: nat)
    requires Within(x.1, Untyped(TagOf(x.1)), depth)
    modifies w
    ensures w.m == old(w.m) + NamedValue(ValueCodec(depth)).enc(x)
    decreases 2 * depth + 1, 0
  {
    hide SmallStringCodec, ValueCodec, Pair, Within;
    PairImage(SmallStringCodec(), ValueCodec(depth), x.0, x.1, w.m);
    WriteSmallString(x.0, w);
    WriteVariable(x.1, w, depth);
  }

  method WriteNamedValues(fs: Fields, w: WriteView, ghost depth: nat)
    requires FieldsWithin(fs, depth)
    modifies w
    ensures w.m == old(w.m) + EncAll(NamedValue(ValueCodec(depth)), fs)
    decreases 2 * depth + 1, 1
  {
    hide EncAll, ValueCodec, NamedValue, Within;
    ghost var c, start := NamedValue(ValueCodec(depth)), w.m;
    var i: nat := 0;
    EncNone(c, fs);
    while i != |fs|
      invariant i <= |fs| && w.m == start + EncAll(c, fs[..i])
    {
      WriteNamed(fs[i], w, depth);
      EncUpTo(c, fs, i);
      i := i + 1;
    }
    assert fs[..i] == fs;
  }

  lemma SortedWithin(fs: Fields, depth: nat)
    requires FieldsWithin(fs, depth)
    ensures FieldsWithin(Sort(fs), depth) && |Sort(fs)| == |fs|
  {
    hide Sort, Within;
    SortFields(fs);
    SortOrdered(fs);
    forall i | 0 <= i < |Sort(fs)| ensures Within(Sort(fs)[i].1, Untyped(TagOf(Sort(fs)[i].1)), depth) {
      assert Sort(fs)[i] in Sort(fs) && Sort(fs)[i] in fs;
    }
  }

  /** An untyped struct: fields out of order are sorted in a copy first. */
  method WriteFields(fs: Fields, w: WriteView, ghost depth: nat)
    requires FieldsWithin(fs, depth)
    modifies w
    ensures w.m == old(w.m) + StructOf(ValueCodec(depth)).enc(fs)
    decreases 2 * depth + 1, 2
  {
    hide EncAll, ValueCodec, NamedValue, FieldsWithin, Sort, LittleEndian;
    SortedWithin(fs, depth);
    WriteWord(|fs|, 4, w);
    if fs == [] {
      NoItems(NamedValue(ValueCodec(depth)));
      assert Sort(fs) == [];
      return;
    }
    var ordered := IsSorted(fs);
    if |fs| > 1 && !ordered {
      WriteNamedValues(Sort(fs), w, depth);
      return;
    }
    if |fs| <= 1 { OneIsOrdered(fs); }
    SortKeeps(fs);
    WriteNamedValues(fs, w, depth);
  }

  lemma OneIsOrdered(fs: Fields)
    requires |fs| <= 1
    ensures Ordered(fs)
  {
  }

  // ---- structs by schema --------------------------------------------------------------------

  lemma {:induction false} RowUpTo(cs: seq<Codec<Value>>, vs: seq<Value>, i: nat)
    requires |cs| == |vs| && i < |cs|
    ensures EncRow(cs[..i + 1], vs[..i + 1]) == EncRow(cs[..i], vs[..i]) + cs[i].enc(vs[i])
  {
    var ds, ws := cs[..i + 1], vs[..i + 1];
    if i > 0 {
      RowUpTo(cs[1..], vs[1..], i - 1);
      assert ds[1..] == cs[1..][..i] && ws[1..] == vs[1..][..i];
      assert cs[..i][1..] == cs[1..][..i - 1] && vs[..i][1..] == vs[1..][..i - 1];
      assert cs[1..][i - 1] == cs[i] && vs[1..][i - 1] == vs[i];
    } else {
      assert ds[1..] == [] && ws[1..] == [];
    }
  }

  /** Each schema field in turn, looked up by name; a missing one is zeroed and noted. */
  method WriteRow(s: Schema, fs: Fields, w: WriteView, ghost depth: nat) returns (found: nat)
    requires WithinBy(fs, s, depth)
    modifies w
    ensures w.m == old(w.m) + EncRow(RowCodecs(depth, s), FieldValues(s, fs))
    ensures found <= |s.fields| && (found == |s.fields| <==> HasAll(s, fs))
    decreases 2 * depth, s, 0
  {
    hide EncRow, Payload, Within, Find, Sorted, Ordered, AtBound;
    ghost var cs, vs, start := RowCodecs(depth, s), FieldValues(s, fs), w.m;
    found := 0;
    var i: nat := 0;
    assert EncRow(cs[..0], vs[..0]) == [] by { NoRow(cs[..0], vs[..0]); }
    SortedIsOrdered(fs);
    while i != |s.fields|
      invariant i <= |s.fields| && found <= i && w.m == start + EncRow(cs[..i], vs[..i])
      invariant found == i <==> forall k :: 0 <= k < i ==> Find(fs, s.fields[k].0).Some?
    {
      var value := Lookup(fs, s.fields[i].0);
      var ok;
      if value.Some? {
        ok := WritePayload(value.value, s.fields[i].1, w, depth);
        found := found + 1;
      } else {
        ok := WritePayload(ZeroOf(s.fields[i].1.tag), s.fields[i].1, w, depth);
      }
      RowUpTo(cs, vs, i);
      i := i + 1;
    }
    assert cs[..i] == cs && vs[..i] == vs;
  }

  lemma NoRow(cs: seq<Codec<Value>>, vs: seq<Value>)
    requires cs == []
    ensures EncRow(cs, vs) == []
  {
  }

  lemma ExtrasWithin(s: Schema, fs: Fields, depth: nat)
    requires FieldsWithin(fs, depth)
    ensures FieldsWithin(Extras(s, fs), depth) && FieldsWithin([], depth)
  {
    hide Find, Within, Extras;
    ExtraFields(s, fs);
    forall i | 0 <= i < |Extras(s, fs)| ensures Within(Extras(s, fs)[i].1, Untyped(TagOf(Extras(s, fs)[i].1)), depth) {
      assert Extras(s, fs)[i] in Extras(s, fs) && Extras(s, fs)[i] in fs;
    }
  }

  /** The fields whose names the schema does not list, gathered one by one. */
  method GatherExtras(s: Schema, fs: Fields) returns (extras: Fields)
    ensures extras == Extras(s, fs)
  {
    hide Find;
    extras := [];
    var i: nat := 0;
    while i != |fs|
      invariant i <= |fs| && extras == Extras(s, fs[..i])
    {
      assert fs[..i + 1][..i] == fs[..i];
      if Find(s.fields, fs[i].0).None? {
        extras := extras + [fs[i]];
      }
      i := i + 1;
    }
    assert fs[..i] == fs;
  }

  method WriteStructBy(s: Schema, fs: Fields, w: WriteView, ghost depth: nat) returns (ok: bool)
    requires WithinBy(fs, s, depth)
    modifies w
    ensures w.m == old(w.m) + StructBy(depth, s).enc(fs)
    ensures ok == HasAll(s, fs)
    decreases 2 * depth, s, 1
  {
    hide StructBy, ValueCodec, EncRow, RowCodecs, Extras, HasAll, FieldsWithin, NamedValue, EncAll, LittleEndian, Sorted, FieldValues;
    ghost var before := w.m;
    var found := WriteRow(s, fs, w, depth);
    ok := found == |s.fields|;
    if !AllowsExtras(s) {
      ByEnc(depth, s, fs, before);
      return;
    }
    ExtrasWithin(s, fs, depth - 1);
    ByEnc(depth, s, fs, before);
    if found == |s.fields| && |s.fields| == |fs| {
      WriteWord(0, 4, w);
      NoItems(NamedValue(ValueCodec(depth - 1)));
      return;
    }
    var extras := GatherExtras(s, fs);
    WriteWord(|extras|, 4, w);
    WriteNamedValues(extras, w, depth - 1);
  }

  lemma ByEnc(depth: nat, s: Schema, fs: Fields, m: seq<Byte>)
    ensures !AllowsExtras(s) ==> m + StructBy(depth, s).enc(fs) == m + EncRow(RowCodecs(depth, s), FieldValues(s, fs))
    ensures AllowsExtras(s) && depth > 0 ==>
      var extras := ExtrasWritten(s, fs);
      m + StructBy(depth, s).enc(fs) ==
        m + EncRow(RowCodecs(depth, s), FieldValues(s, fs)) + LittleEndian(|extras|, 4) + EncAll(NamedValue(ValueCodec(depth - 1)), extras)
  {
    hide StructBy, ValueCodec, FieldValues, ExtrasWritten, NamedValue, Pair, EncAll, LittleEndian, Payload;
    StructByIs(depth, s);
    var cs, inner, extras := RowCodecs(depth, s), Inner(depth), ExtrasWritten(s, fs);
    PairShape(Row(cs), Listed(NamedValue(inner)));
    Appended(m, EncRow(cs, FieldValues(s, fs)), LittleEndian(|extras|, 4) + EncAll(NamedValue(inner), extras));
    Appended(m + EncRow(cs, FieldValues(s, fs)), LittleEndian(|extras|, 4), EncAll(NamedValue(inner), extras));
    if s.fields == [] {
      NoRow(cs, FieldValues(s, fs));
    }
  }

  // ---- arrays of structs --------------------------------------------------------------------

  method WriteRowsBy(s: Schema, rows: seq<Fields>, w: WriteView, ghost depth: nat)
    requires forall i :: 0 <= i < |rows| ==> WithinBy(rows[i], s, depth)
    modifies w
    ensures w.m == old(w.m) + EncAll(StructBy(depth, s), rows)
    decreases 2 * depth, s, 2
  {
    hide EncAll, StructBy, WithinBy;
    ghost var c, start := StructBy(depth, s), w.m;
    var i: nat := 0;
    EncNone(c, rows);
    while i != |rows|
      invariant i <= |rows| && w.m == start + EncAll(c, rows[..i])
    {
      var ok := WriteStructBy(s, rows[i], w, depth);
      EncUpTo(c, rows, i);
      i := i + 1;
    }
    assert rows[..i] == rows;
  }

  method WriteUntypedRows(rows: seq<Fields>, w: WriteView, ghost depth: nat)
    requires forall i :: 0 <= i < |rows| ==> FieldsWithin(rows[i], depth)
    modifies w
    ensures w.m == old(w.m) + EncAll(StructOf(ValueCodec(depth)), rows)
    decreases 2 * depth + 1, 3
  {
    hide EncAll, StructOf, ValueCodec, FieldsWithin;
    ghost var c, start := StructOf(ValueCodec(depth)), w.m;
    var i: nat := 0;
    EncNone(c, rows);
    while i != |rows|
      invariant i <= |rows| && w.m == start + EncAll(c, rows[..i])
    {
      WriteFields(rows[i], w, depth);
      EncUpTo(c, rows, i);
      i := i + 1;
    }
    assert rows[..i] == rows;
  }

  /** An array of structs: under the schema at hand, under its own, which goes first, or untyped. */
  method WriteRecords(x: Value, f: FieldType, w: WriteView, ghost depth: nat)
    requires f.tag == ARRAY_STRUCT && x.Records? && Within(x, f, depth)
    modifies w
    ensures w.m == old(w.m) + Core(depth, f).enc(x)
    decreases 2 * depth, f, 0
  {
    hide EncAll, StructBy, StructOf, ValueCodec, LittleEndian, SchemaCodec, Core, WithinBy, FieldsWithin, SchemaWithin;
    ghost var before := w.m;
    RecordsEnc(depth, f, x, before);
    WriteWord(|x.rows|, 4, w);
    if f.structure.fields != [] {
      WriteRowsBy(f.structure, x.rows, w, depth);
    } else if x.schema.fields != [] {
      WriteSchema(x.schema, w, depth);
      WriteRowsBy(x.schema, x.rows, w, depth - 1);
    } else {
      WriteUntypedRows(x.rows, w, depth - 1);
    }
  }

  lemma RecordsEnc(depth: nat, f: FieldType, x: Value, m: seq<Byte>)
    requires f.tag == ARRAY_STRUCT && x.Records? && (f.structure.fields == [] ==> depth > 0)
    ensures m + Core(depth, f).enc(x) ==
      if f.structure.fields != [] then m + LittleEndian(|x.rows|, 4) + EncAll(StructBy(depth, f.structure), x.rows)
      else if x.schema.fields != [] then m + LittleEndian(|x.rows|, 4) + SchemaCodec(depth).enc(x.schema) + EncAll(StructBy(depth - 1, x.schema), x.rows)
      else m + LittleEndian(|x.rows|, 4) + EncAll(StructOf(ValueCodec(depth - 1)), x.rows)
  {
    hide EncAll, ByFields, StructOf, ValueCodec, LittleEndian, SchemaCodec;
    var n := LittleEndian(|x.rows|, 4);
    if f.structure.fields != [] {
      Appended(m, n, EncAll(StructBy(depth, f.structure), x.rows));
    } else if x.schema.fields != [] {
      var rowOf := (s: Schema) => StructBy(depth - 1, s);
      assert rowOf(x.schema) == StructBy(depth - 1, x.schema);
      Appended(m, n, SchemaCodec(depth).enc(x.schema) + EncAll(StructBy(depth - 1, x.schema), x.rows));
      Appended(m + n, SchemaCodec(depth).enc(x.schema), EncAll(StructBy(depth - 1, x.schema), x.rows));
    } else {
      Appended(m, n, EncAll(StructOf(ValueCodec(depth - 1)), x.rows));
    }
  }
}
