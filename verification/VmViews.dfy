/** The readers of dynamic values on a view: each advances the cursor part by part and agrees with the
    wire form, on every input. The depth is not part of the program; it only counts the bytes left. */
module VmViews {
  import opened Wrappers
  import opened Words64
  import opened Codecs
  import opened WireFormat
  import opened IntX
  import opened IntXViews
  import opened Views
  import opened FaithfulCodecs
  import opened VmNames
  import opened VmValues
  import opened VmFlat
  import opened VmSchemas
  import opened VmStructs
  import opened VmCodec

  // ---- flat values --------------------------------------------------------------------------

  /** Byte by byte up to the terminating zero. */
  method ReadText(r: ReadView) returns (out: Option<seq<Byte>>)
    requires !r.fail
    modifies r`bytes, r`fail
    ensures Reads(TextCodec(), old(r.bytes), r.bytes, r.fail, out)
    ensures out.Some? ==> !r.fail
  {
    hide TextDec;
    ghost var start := r.bytes;
    var text: seq<Byte> := [];
    AfterNothing(TextDec(start));
    while true
      invariant !r.fail && |text| <= |start| && r.bytes == start[|text|..]
      invariant TextDec(start) == After(text, TextDec(r.bytes))
      decreases |r.bytes|
    {
      TextHead(r.bytes);
      if r.bytes == [] {
        return None;
      }
      var b := r.bytes[0];
      ghost var rest := TextDec(r.bytes[1..]);
      var ok := r.Advance(1);
      assert start[|text|..][1..] == start[|text| + 1..];
      if b == 0 {
        assert text + [] == text;
        break;
      }
      AfterTwo(text, b, rest);
      text := text + [b];
    }
    out := Some(text);
  }

  function After(text: seq<Byte>, a: Answer<seq<Byte>>): Answer<seq<Byte>> {
    match a case None => None case Some((t, n)) => Some((text + t, |text| + n))
  }

  lemma AfterNothing(a: Answer<seq<Byte>>)
    ensures After([], a) == a
  {
    if a.Some? { assert [] + a.value.0 == a.value.0; }
  }

  lemma AfterTwo(text: seq<Byte>, b: Byte, a: Answer<seq<Byte>>)
    ensures After(text, After([b], a)) == After(text + [b], a)
  {
    if a.Some? { assert text + ([b] + a.value.0) == text + [b] + a.value.0; }
  }

  lemma TextHead(s: seq<Byte>)
    ensures TextDec(s) == if s == [] then None else if s[0] == 0 then Some(([], 1)) else After([s[0]], TextDec(s[1..]))
  {
  }

  method ReadOne(tag: int, r: ReadView) returns (out: Option<Value>)
    requires !r.fail
    modifies r`bytes, r`fail
    ensures Reads(OneFlat(tag), old(r.bytes), r.bytes, r.fail, out)
    ensures out.Some? ==> !r.fail
  {
    hide Reads, Counted, WholeCodec, Word256Codec, TextCodec, Raw;
    ghost var s := r.bytes;
    if tag == BYTES {
      var b := ReadCounted(r);
      VariantReads(Counted(), (b: seq<Byte>) => Bytes(b), (v: Value) => BytesIn(v), s, r.bytes, r.fail, b);
      out := if b.None? then None else Some(Bytes(b.value));
    } else if NumberSize(tag) > 0 {
      var n := ReadWhole(NumberSize(tag), r);
      VariantReads(WholeCodec(NumberSize(tag)), (n: nat) => Whole(NumberSize(tag), n), (v: Value) => WholeIn(v, NumberSize(tag)), s, r.bytes, r.fail, n);
      out := if n.None? then None else Some(Whole(NumberSize(tag), n.value));
    } else if tag == INT256 {
      var w := ReadWord(r);
      VariantReads(Word256Codec(), (w: Word256) => Wide(w), (v: Value) => WideIn(v), s, r.bytes, r.fail, w);
      NotFailed(Word256Codec(), s, r.bytes, r.fail, w);
      out := if w.None? then None else Some(Wide(w.value));
    } else if BlockSize(tag) > 0 {
      var b := ReadRaw(BlockSize(tag), r);
      VariantReads(Raw(BlockSize(tag)), (b: seq<Byte>) => Block(BlockSize(tag), b), (v: Value) => BlockIn(v, BlockSize(tag)), s, r.bytes, r.fail, b);
      out := if b.None? then None else Some(Block(BlockSize(tag), b.value));
    } else if tag == STRING {
      var t := ReadText(r);
      VariantReads(TextCodec(), (t: seq<Byte>) => Text(t), (v: Value) => TextIn(v), s, r.bytes, r.fail, t);
      out := if t.None? then None else Some(Text(t.value));
    } else {
      BottomReads<Value>(1, s, r.bytes, r.fail);
      out := None;
    }
  }

  lemma BottomReads<T>(least: nat, s0: seq<Byte>, s1: seq<Byte>, fail: bool)
    ensures Reads(Bottom<T>(least), s0, s1, fail, None)
  {
  }

  method ReadByteLists(r: ReadView) returns (out: Option<seq<seq<Byte>>>)
    requires !r.fail
    modifies r`bytes, r`fail
    ensures Reads(ArrayOf(Counted(), 4), old(r.bytes), r.bytes, r.fail, out)
    ensures out.Some? ==> !r.fail
  {
    hide Reads, ArrayOf, LengthDec, ReadSoFar, Counted;
    ghost var s, c := r.bytes, Counted();
    LengthIsFour(s, 4);
    var len := ReadArrayLength(r, 4);
    if len.None? {
      NoLength(c, 4, s, r.bytes, r.fail);
      return None;
    }
    ghost var body := r.bytes;
    var items: seq<seq<Byte>> := [];
    NoneRead(c, body);
    var i: nat := 0;
    while i != len.value
      invariant i <= len.value && !r.fail && ReadSoFar(c, body, i, items, r.bytes)
    {
      ghost var before := r.bytes;
      var item := ReadCounted(r);
      OneMore(c, body, i, items, before, r.bytes, r.fail, item);
      if item.None? {
        SomeRefused(c, 4, s, i + 1, len.value, r.bytes, r.fail);
        return None;
      }
      items := items + [item.value];
      i := i + 1;
    }
    AllRead(c, 4, s, len.value, items, r.bytes);
    out := Some(items);
  }

  method ReadWholes(size: nat, r: ReadView) returns (out: Option<seq<nat>>)
    requires !r.fail
    modifies r`bytes, r`fail
    ensures Reads(ArrayOf(WholeCodec(size), size), old(r.bytes), r.bytes, r.fail, out)
    ensures out.Some? ==> !r.fail
  {
    hide Reads, ArrayOf, LengthDec, ReadSoFar, WholeCodec;
    ghost var s, c := r.bytes, WholeCodec(size);
    LengthIsFour(s, size);
    var len := ReadArrayLength(r, size);
    if len.None? {
      NoLength(c, size, s, r.bytes, r.fail);
      return None;
    }
    ghost var body := r.bytes;
    var items: seq<nat> := [];
    NoneRead(c, body);
    var i: nat := 0;
    while i != len.value
      invariant i <= len.value && !r.fail && ReadSoFar(c, body, i, items, r.bytes)
    {
      ghost var before := r.bytes;
      var item := ReadWhole(size, r);
      OneMore(c, body, i, items, before, r.bytes, r.fail, item);
      if item.None? {
        SomeRefused(c, size, s, i + 1, len.value, r.bytes, r.fail);
        return None;
      }
      items := items + [item.value];
      i := i + 1;
    }
    AllRead(c, size, s, len.value, items, r.bytes);
    out := Some(items);
  }

  method ReadWides(r: ReadView) returns (out: Option<seq<Word256>>)
    requires !r.fail
    modifies r`bytes, r`fail
    ensures Reads(ArrayOf(Word256Codec(), 1), old(r.bytes), r.bytes, r.fail, out)
    ensures out.Some? ==> !r.fail
  {
    hide Reads, ArrayOf, LengthDec, ReadSoFar, Word256Codec;
    ghost var s, c := r.bytes, Word256Codec();
    LengthIsFour(s, 1);
    var len := ReadArrayLength(r, 1);
    if len.None? {
      NoLength(c, 1, s, r.bytes, r.fail);
      return None;
    }
    ghost var body := r.bytes;
    var items: seq<Word256> := [];
    NoneRead(c, body);
    var i: nat := 0;
    while i != len.value
      invariant i <= len.value && !r.fail && ReadSoFar(c, body, i, items, r.bytes)
    {
      ghost var before := r.bytes;
      var item := ReadWord(r);
      OneMore(c, body, i, items, before, r.bytes, r.fail, item);
      if item.None? {
        SomeRefused(c, 1, s, i + 1, len.value, r.bytes, r.fail);
        return None;
      }
      items := items + [item.value];
      i := i + 1;
    }
    AllRead(c, 1, s, len.value, items, r.bytes);
    out := Some(items);
  }

  method ReadBlocks(width: nat, r: ReadView) returns (out: Option<seq<seq<Byte>>>)
    requires !r.fail
    modifies r`bytes, r`fail
    ensures Reads(ArrayOf(Raw(width), width), old(r.bytes), r.bytes, r.fail, out)
    ensures out.Some? ==> !r.fail
  {
    hide Reads, ArrayOf, LengthDec, ReadSoFar, Raw;
    ghost var s, c := r.bytes, Raw(width);
    LengthIsFour(s, width);
    var len := ReadArrayLength(r, width);
    if len.None? {
      NoLength(c, width, s, r.bytes, r.fail);
      return None;
    }
    ghost var body := r.bytes;
    var items: seq<seq<Byte>> := [];
    NoneRead(c, body);
    var i: nat := 0;
    while i != len.value
      invariant i <= len.value && !r.fail && ReadSoFar(c, body, i, items, r.bytes)
    {
      ghost var before := r.bytes;
      var item := ReadRaw(width, r);
      OneMore(c, body, i, items, before, r.bytes, r.fail, item);
      if item.None? {
        SomeRefused(c, width, s, i + 1, len.value, r.bytes, r.fail);
        return None;
      }
      items := items + [item.value];
      i := i + 1;
    }
    AllRead(c, width, s, len.value, items, r.bytes);
    out := Some(items);
  }

  method ReadTexts(r: ReadView) returns (out: Option<seq<seq<Byte>>>)
    requires !r.fail
    modifies r`bytes, r`fail
    ensures Reads(ArrayOf(TextCodec(), 1), old(r.bytes), r.bytes, r.fail, out)
    ensures out.Some? ==> !r.fail
  {
    hide Reads, ArrayOf, LengthDec, ReadSoFar, TextCodec;
    ghost var s, c := r.bytes, TextCodec();
    LengthIsFour(s, 1);
    var len := ReadArrayLength(r, 1);
    if len.None? {
      NoLength(c, 1, s, r.bytes, r.fail);
      return None;
    }
    ghost var body := r.bytes;
    var items: seq<seq<Byte>> := [];
    NoneRead(c, body);
    var i: nat := 0;
    while i != len.value
      invariant i <= len.value && !r.fail && ReadSoFar(c, body, i, items, r.bytes)
    {
      ghost var before := r.bytes;
      var item := ReadText(r);
      OneMore(c, body, i, items, before, r.bytes, r.fail, item);
      if item.None? {
        SomeRefused(c, 1, s, i + 1, len.value, r.bytes, r.fail);
        return None;
      }
      items := items + [item.value];
      i := i + 1;
    }
    AllRead(c, 1, s, len.value, items, r.bytes);
    out := Some(items);
  }

  method ReadMany(tag: int, r: ReadView) returns (out: Option<Value>)
    requires !r.fail
    modifies r`bytes, r`fail
    ensures Reads(ManyFlat(tag), old(r.bytes), r.bytes, r.fail, out)
    ensures out.Some? ==> !r.fail
  {
    hide Reads, Counted, WholeCodec, Word256Codec, TextCodec, Raw, ArrayOf;
    ghost var s := r.bytes;
    if tag == ARRAY_BYTES {
      var b := ReadByteLists(r);
      VariantReads(ArrayOf(Counted(), 4), (b: seq<seq<Byte>>) => ByteLists(b), (v: Value) => ListsIn(v), s, r.bytes, r.fail, b);
      out := if b.None? then None else Some(ByteLists(b.value));
    } else if NumberSize(tag - 1) > 0 {
      var n := ReadWholes(NumberSize(tag - 1), r);
      VariantReads(ArrayOf(WholeCodec(NumberSize(tag - 1)), NumberSize(tag - 1)), (n: seq<nat>) => Wholes(NumberSize(tag - 1), n),
                   (v: Value) => WholesIn(v, NumberSize(tag - 1)), s, r.bytes, r.fail, n);
      out := if n.None? then None else Some(Wholes(NumberSize(tag - 1), n.value));
    } else if tag == ARRAY_INT256 {
      var w := ReadWides(r);
      VariantReads(ArrayOf(Word256Codec(), 1), (w: seq<Word256>) => Wides(w), (v: Value) => WidesIn(v), s, r.bytes, r.fail, w);
      out := if w.None? then None else Some(Wides(w.value));
    } else if BlockSize(tag - 1) > 0 {
      var b := ReadBlocks(BlockSize(tag - 1), r);
      VariantReads(ArrayOf(Raw(BlockSize(tag - 1)), BlockSize(tag - 1)), (b: seq<seq<Byte>>) => Blocks(BlockSize(tag - 1), b),
                   (v: Value) => BlocksIn(v, BlockSize(tag - 1)), s, r.bytes, r.fail, b);
      out := if b.None? then None else Some(Blocks(BlockSize(tag - 1), b.value));
    } else if tag == ARRAY_STRING {
      var t := ReadTexts(r);
      VariantReads(ArrayOf(TextCodec(), 1), (t: seq<seq<Byte>>) => Texts(t), (v: Value) => TextsIn(v), s, r.bytes, r.fail, t);
      out := if t.None? then None else Some(Texts(t.value));
    } else {
      BottomReads<Value>(1, s, r.bytes, r.fail);
      out := None;
    }
  }

  method ReadFlat(tag: Byte, r: ReadView) returns (out: Option<Value>)
    requires !r.fail
    modifies r`bytes, r`fail
    ensures Reads(FlatCodec(tag), old(r.bytes), r.bytes, r.fail, out)
    ensures out.Some? ==> !r.fail
  {
    hide OneFlat, ManyFlat, Reads;
    if tag % 2 == 0 {
      out := ReadOne(tag, r);
    } else {
      out := ReadMany(tag, r);
    }
  }

  // ---- schemas ------------------------------------------------------------------------------

  function InnerSchema(depth: nat): Codec<Schema> {
    if depth == 0 then Bottom(5) else SchemaCodec(depth - 1)
  }

  lemma PlainReads(tag: Byte, s: seq<Byte>)
    ensures Reads(PlainType(tag), s, s, false, Some(FieldType(tag, EMPTY_SCHEMA)))
  {
  }

  lemma TaggedReads<T>(tagOf: T -> Byte, body: Byte -> Codec<T>, s0: seq<Byte>, s1: seq<Byte>, fail: bool, out: Option<T>)
    requires s0 != [] && Reads(body(s0[0]), s0[1..], s1, fail, out)
    ensures Reads(Tagged(tagOf, body), s0, s1, fail, out)
  {
    if out.Some? {
      var n := body(s0[0]).dec(s0[1..]).value.1;
      assert s0[1..][n..] == s0[1 + n..];
    }
  }

  lemma EmptyTagged<T>(tagOf: T -> Byte, body: Byte -> Codec<T>, s1: seq<Byte>, fail: bool)
    ensures Reads(Tagged(tagOf, body), [], s1, fail, None)
  {
  }

  /** One byte of a type. */
  method ReadTag(r: ReadView) returns (tag: Option<Byte>)
    requires !r.fail
    modifies r`bytes, r`fail
    ensures tag.Some? <==> old(r.bytes) != []
    ensures tag.Some? ==> tag.value == old(r.bytes)[0] && r.bytes == old(r.bytes)[1..] && !r.fail
  {
    var ok, b := r.ReadBytes(1);
    tag := if ok then Some(b[0]) else None;
  }

  method ReadType(r: ReadView, ghost depth: nat) returns (out: Option<FieldType>)
    requires !r.fail && |r.bytes| <= depth
    modifies r`bytes, r`fail
    ensures Reads(TypeOf(InnerSchema(depth)), old(r.bytes), r.bytes, r.fail, out)
    ensures out.Some? ==> !r.fail
    decreases depth, 0
  {
    hide Reads, SchemaCodec, Tagged;
    ghost var s, inner := r.bytes, InnerSchema(depth);
    var tag := ReadTag(r);
    if tag.None? {
      EmptyTagged((f: FieldType) => f.tag, (tag: Byte) => TypeBody(inner, tag), r.bytes, r.fail);
      return None;
    }
    if HasStructure(tag.value) {
      ghost var s1 := r.bytes;
      var structure := ReadSchema(r, depth - 1);
      VariantReads(inner, (s: Schema) => FieldType(tag.value, s), (f: FieldType) => StructureIf(f, tag.value), s1, r.bytes, r.fail, structure);
      out := if structure.None? then None else Some(FieldType(tag.value, structure.value));
    } else {
      PlainReads(tag.value, r.bytes);
      out := Some(FieldType(tag.value, EMPTY_SCHEMA));
    }
    TaggedReads((f: FieldType) => f.tag, (tag: Byte) => TypeBody(inner, tag), s, r.bytes, r.fail, out);
  }

  method ReadNamedType(r: ReadView, ghost depth: nat) returns (out: Option<Named<FieldType>>)
    requires !r.fail && |r.bytes| <= depth
    modifies r`bytes, r`fail
    ensures Reads(NamedType(InnerSchema(depth)), old(r.bytes), r.bytes, r.fail, out)
    ensures out.Some? ==> !r.fail
    decreases depth, 1
  {
    hide Reads, SchemaCodec, TypeOf, Pair, SmallStringCodec;
    ghost var s0 := r.bytes;
    var name := ReadSmallString(r);
    NotFailed(SmallStringCodec(), s0, r.bytes, r.fail, name);
    ghost var s1, f1 := r.bytes, r.fail;
    var kind: Option<FieldType> := None;
    if name.Some? { kind := ReadType(r, depth); }
    PairReads(SmallStringCodec(), TypeOf(InnerSchema(depth)), s0, s1, r.bytes, f1, r.fail, name, kind);
    out := if kind.None? then None else Some((name.value, kind.value));
  }

  method ReadNamedTypes(r: ReadView, ghost depth: nat) returns (out: Option<seq<Named<FieldType>>>)
    requires !r.fail && |r.bytes| <= depth
    modifies r`bytes, r`fail
    ensures Reads(ArrayOf(NamedType(InnerSchema(depth)), 1), old(r.bytes), r.bytes, r.fail, out)
    ensures out.Some? ==> !r.fail
    decreases depth, 2
  {
    hide Reads, ArrayOf, NamedType, LengthDec, ReadSoFar, InnerSchema;
    ghost var s, c := r.bytes, NamedType(InnerSchema(depth));
    LengthIsFour(s, 1);
    var len := ReadArrayLength(r, 1);
    if len.None? {
      NoLength(c, 1, s, r.bytes, r.fail);
      return None;
    }
    ghost var body := r.bytes;
    var items: seq<Named<FieldType>> := [];
    NoneRead(c, body);
    var i: nat := 0;
    while i != len.value
      invariant i <= len.value && !r.fail && |r.bytes| <= |body| && ReadSoFar(c, body, i, items, r.bytes)
    {
      ghost var before := r.bytes;
      var item := ReadNamedType(r, depth);
      OneMore(c, body, i, items, before, r.bytes, r.fail, item);
      if item.None? {
        SomeRefused(c, 1, s, i + 1, len.value, r.bytes, r.fail);
        return None;
      }
      items := items + [item.value];
      i := i + 1;
    }
    AllRead(c, 1, s, len.value, items, r.bytes);
    out := Some(items);
  }

  method ReadSchema(r: ReadView, ghost depth: nat) returns (out: Option<Schema>)
    requires !r.fail && |r.bytes| <= depth
    modifies r`bytes, r`fail
    ensures Reads(SchemaCodec(depth), old(r.bytes), r.bytes, r.fail, out)
    ensures out.Some? ==> !r.fail
    decreases depth, 3
  {
    hide Reads, ArrayOf, NamedType, Pair, U8Codec;
    ghost var s0, inner := r.bytes, InnerSchema(depth);
    var fields := ReadNamedTypes(r, depth);
    ghost var s1, f1 := r.bytes, r.fail;
    var flags: Option<U8> := None;
    if fields.Some? { flags := ReadU8(r); }
    ghost var both := if flags.None? then None else Some((fields.value, flags.value));
    PairReads(ArrayOf(NamedType(inner), 1), U8Codec(), s0, s1, r.bytes, f1, r.fail, fields, flags);
    SchemaReads(depth, s0, r.bytes, r.fail, both);
    out := if flags.None? then None else Some(Schema(fields.value, flags.value));
  }

  lemma SchemaReads(depth: nat, s0: seq<Byte>, s1: seq<Byte>, fail: bool, both: Option<(seq<Named<FieldType>>, U8)>)
    requires Reads(SchemaParts(InnerSchema(depth)), s0, s1, fail, both)
    ensures Reads(SchemaCodec(depth), s0, s1, fail, if both.None? then None else Some(Schema(both.value.0, both.value.1)))
  {
    hide Reads, SchemaParts;
    var inner := InnerSchema(depth);
    MappedReads(SchemaParts(inner), (p: (seq<Named<FieldType>>, U8)) => Schema(p.0, p.1), (s: Schema) => (s.fields, s.flags),
                (s: Schema) => SchemaParts(inner).fits((s.fields, s.flags)), s0, s1, fail, both);
    assert SchemaCodec(depth) == SchemaAround(inner);
  }
}
