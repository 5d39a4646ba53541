/** The wire form of struct schemas: named field types, whose structs carry schemas of their own. */
module VmSchemas {
  import opened Wrappers
  import opened Words64
  import opened Codecs
  import opened WireFormat
  import opened FaithfulCodecs
  import opened VmNames
  import opened VmValues

  predicate HasStructure(tag: int) {
    tag == STRUCT || tag == ARRAY_STRUCT
  }

  /** A type without a structure is its type byte alone. */
  function PlainType(tag: Byte): Codec<FieldType> {
    Codec((f: FieldType) => [], (s: seq<Byte>) => Some((FieldType(tag, EMPTY_SCHEMA), 0)),
          (f: FieldType) => f == FieldType(tag, EMPTY_SCHEMA), 0)
  }

  function StructureIf(f: FieldType, tag: Byte): Option<Schema> {
    if f.tag == tag then Some(f.structure) else None
  }

  function StructuredType(tag: Byte, inner: Codec<Schema>): Codec<FieldType> {
    Variant(inner, (s: Schema) => FieldType(tag, s), (f: FieldType) => StructureIf(f, tag))
  }

  function TypeBody(inner: Codec<Schema>, tag: Byte): Codec<FieldType> {
    if HasStructure(tag) then StructuredType(tag, inner) else PlainType(tag)
  }

  function TypeOf(inner: Codec<Schema>): Codec<FieldType> {
    Tagged((f: FieldType) => f.tag, (tag: Byte) => TypeBody(inner, tag))
  }

  function NamedType(inner: Codec<Schema>): Codec<Named<FieldType>> {
    Pair(SmallStringCodec(), TypeOf(inner))
  }

  function SchemaParts(inner: Codec<Schema>): Codec<(seq<Named<FieldType>>, U8)> {
    Pair(ArrayOf(NamedType(inner), 1), U8Codec())
  }

  function SchemaAround(inner: Codec<Schema>): Codec<Schema> {
    Mapped(SchemaParts(inner), (p: (seq<Named<FieldType>>, U8)) => Schema(p.0, p.1), (s: Schema) => (s.fields, s.flags),
           (s: Schema) => SchemaParts(inner).fits((s.fields, s.flags)))
  }

  /** Schemas nested up to a depth. */
  function SchemaCodec(depth: nat): Codec<Schema> {
    SchemaAround(if depth == 0 then Bottom(5) else SchemaCodec(depth - 1))
  }

  lemma TypeFaithful(inner: Codec<Schema>)
    requires Faithful(inner)
    ensures Faithful(TypeOf(inner)) && TypeOf(inner).least == 1
  {
    hide Faithful;
    forall tag: Byte ensures Faithful(TypeBody(inner, tag)) {
      if HasStructure(tag) {
        VariantFaithful(inner, (s: Schema) => FieldType(tag, s), (f: FieldType) => StructureIf(f, tag));
      } else {
        PlainFaithful(tag);
      }
    }
    hide TypeBody;
    TaggedFaithful((f: FieldType) => f.tag, (tag: Byte) => TypeBody(inner, tag));
  }

  lemma PlainFaithful(tag: Byte)
    ensures Faithful(PlainType(tag))
  {
  }

  lemma NameFaithful()
    ensures Faithful(SmallStringCodec()) && SmallStringCodec().least >= 1
  {
    hide Lawful, Faithful;
    SmallStringLawful();
    LawfulIsFaithful(SmallStringCodec());
  }

  lemma AroundFaithful(inner: Codec<Schema>)
    requires Faithful(inner)
    ensures Faithful(SchemaAround(inner))
  {
    hide Faithful, Lawful, SmallStringCodec, TypeOf, U8Codec, ArrayOf;
    TypeFaithful(inner);
    NameFaithful();
    PairFaithful(SmallStringCodec(), TypeOf(inner));
    ArrayFaithful(NamedType(inner), 1);
    WordsLawful();
    LawfulIsFaithful(U8Codec());
    PairFaithful(ArrayOf(NamedType(inner), 1), U8Codec());
    hide SchemaParts;
    MappedFaithful(SchemaParts(inner), (p: (seq<Named<FieldType>>, U8)) => Schema(p.0, p.1), (s: Schema) => (s.fields, s.flags),
                   (s: Schema) => SchemaParts(inner).fits((s.fields, s.flags)));
  }

  lemma {:induction false} SchemaFaithful(depth: nat)
    ensures Faithful(SchemaCodec(depth))
  {
    hide Faithful, SchemaAround;
    if depth == 0 {
      BottomFaithful<Schema>(5);
      AroundFaithful(Bottom(5));
    } else {
      SchemaFaithful(depth - 1);
      AroundFaithful(SchemaCodec(depth - 1));
    }
  }

  lemma SameGrows<T(!new)>(c: Codec<T>, n: int)
    ensures Grows(c, c, n)
  {
  }

  lemma AroundGrows(inner: Codec<Schema>, wider: Codec<Schema>, n: int)
    requires Grows(inner, wider, n - 1)
    ensures Grows(SchemaAround(inner), SchemaAround(wider), n)
  {
    hide Grows, SmallStringCodec, U8Codec, ArrayOf, Tagged, Pair;
    forall tag: Byte ensures Grows(TypeBody(inner, tag), TypeBody(wider, tag), n - 1) {
      if HasStructure(tag) {
        VariantGrows(inner, wider, (s: Schema) => FieldType(tag, s), (f: FieldType) => StructureIf(f, tag), n - 1);
      } else {
        SameGrows(PlainType(tag), n - 1);
      }
    }
    hide TypeBody;
    TaggedGrows((f: FieldType) => f.tag, (tag: Byte) => TypeBody(inner, tag), (tag: Byte) => TypeBody(wider, tag), n);
    SameGrows(SmallStringCodec(), n);
    PairGrows(SmallStringCodec(), SmallStringCodec(), TypeOf(inner), TypeOf(wider), n);
    ArrayGrows(NamedType(inner), NamedType(wider), 1, n);
    SameGrows(U8Codec(), n);
    PairGrows(ArrayOf(NamedType(inner), 1), ArrayOf(NamedType(wider), 1), U8Codec(), U8Codec(), n);
    PartsGrow(inner, wider, n);
  }

  lemma PartsGrow(inner: Codec<Schema>, wider: Codec<Schema>, n: int)
    requires Grows(SchemaParts(inner), SchemaParts(wider), n)
    ensures Grows(SchemaAround(inner), SchemaAround(wider), n)
  {
    hide SchemaParts;
    MappedGrows(SchemaParts(inner), SchemaParts(wider), (p: (seq<Named<FieldType>>, U8)) => Schema(p.0, p.1),
                (s: Schema) => (s.fields, s.flags), (s: Schema) => SchemaParts(inner).fits((s.fields, s.flags)),
                (s: Schema) => SchemaParts(wider).fits((s.fields, s.flags)), n);
  }

  /** The bound on depth does not show on inputs no longer than it. */
  lemma {:induction false} SchemaGrows(depth: nat, wider: nat)
    requires depth <= wider
    ensures Grows(SchemaCodec(depth), SchemaCodec(wider), depth)
  {
    hide Grows, SchemaAround;
    if depth == 0 {
      if wider == 0 {
        SameGrows(SchemaCodec(0), 0);
      } else {
        BottomGrows(5, SchemaCodec(wider - 1));
        AroundGrows(Bottom(5), SchemaCodec(wider - 1), 0);
      }
    } else {
      SchemaGrows(depth - 1, wider - 1);
      AroundGrows(SchemaCodec(depth - 1), SchemaCodec(wider - 1), depth);
    }
  }

  /** What a schema must keep to be written: counts below 2^31, and no structure under a plain type. */
  predicate SchemaFits(s: Schema, depth: nat) {
    && |s.fields| < 0x8000_0000
    && forall i :: 0 <= i < |s.fields| ==> TypeFits(s.fields[i].1, depth)
  }

  predicate TypeFits(f: FieldType, depth: nat) {
    if HasStructure(f.tag) then depth > 0 && SchemaFits(f.structure, depth - 1) else f.structure == EMPTY_SCHEMA
  }

  lemma {:induction false} SchemaFitsIs(s: Schema, depth: nat)
    ensures SchemaCodec(depth).fits(s) <==> SchemaFits(s, depth)
  {
    hide TypeOf, Pair, ArrayOf, SmallStringCodec, U8Codec;
    var inner := if depth == 0 then Bottom(5) else SchemaCodec(depth - 1);
    assert SchemaCodec(depth) == SchemaAround(inner);
    AroundFits(inner, s);
    forall i | 0 <= i < |s.fields| ensures TypeOf(inner).fits(s.fields[i].1) <==> TypeFits(s.fields[i].1, depth) {
      TypeOfFits(inner, s.fields[i].1);
      if depth > 0 { SchemaFitsIs(s.fields[i].1.structure, depth - 1); }
    }
  }

  lemma TypeOfFits(inner: Codec<Schema>, f: FieldType)
    ensures TypeOf(inner).fits(f) <==> if HasStructure(f.tag) then inner.fits(f.structure) else f.structure == EMPTY_SCHEMA
  {
  }

  lemma AroundFits(inner: Codec<Schema>, s: Schema)
    ensures SchemaAround(inner).fits(s) <==>
      |s.fields| < 0x8000_0000 && forall i :: 0 <= i < |s.fields| ==> TypeOf(inner).fits(s.fields[i].1)
  {
    hide TypeOf, Pair, ArrayOf, SmallStringCodec, U8Codec;
    PairShape(ArrayOf(NamedType(inner), 1), U8Codec());
    ArrayShape(NamedType(inner), 1, s.fields);
    PairShape(SmallStringCodec(), TypeOf(inner));
    NamesFit();
    WordShapes();
  }

  lemma NamesFit()
    ensures forall s: SmallString :: SmallStringCodec().fits(s)
  {
  }
}
