/** Which dynamic values come back from the wire, in the values' own terms, and what becomes of those
    that do not. */
module VmLaws {
  import opened Wrappers
  import opened Words64
  import opened Codecs
  import opened WireFormat
  import opened FaithfulCodecs
  import opened VmNames
  import opened VmValues
  import opened VmFlat
  import opened VmSchemas
  import opened VmStructs
  import opened VmCodec

  // ---- the values that come back ------------------------------------------------------------

  /** A value of the type asked for whose parts can all be written; depth bounds the nesting only. */
  ghost predicate Storable(v: Value, f: FieldType, depth: nat)
    decreases depth, f
  {
    && TagOf(v) == f.tag
    && match v
       case Nothing => false
       case Dynamic(x) => depth > 0 && Storable(x, Untyped(TagOf(x)), depth - 1)
       case Values(xs) => Short(xs) && forall i :: 0 <= i < |xs| ==> depth > 0 && Storable(xs[i], Untyped(TagOf(xs[i])), depth - 1)
       case Record(fs) => if f.structure.fields == [] then Sorted(fs) && Short(fs) && (fs == [] || (depth > 0 && StorableFields(fs, depth - 1))) else StorableBy(fs, f.structure, depth)
       case Records(s, rows) =>
         Short(rows) &&
         if f.structure.fields != [] then
           v == RecordsWith(f.structure, rows) && forall i :: 0 <= i < |rows| ==> StorableBy(rows[i], f.structure, depth)
         else
           && depth > 0 && (if rows == [] then s == EMPTY_SCHEMA else s.fields != [] && SchemaFits(s, depth))
           && forall i :: 0 <= i < |rows| ==> StorableBy(rows[i], s, depth - 1)
       case _ => FlatFits(v)
  }

  /** Named values of any type. */
  ghost predicate StorableFields(fs: Fields, depth: nat)
    decreases depth
  {
    forall i :: 0 <= i < |fs| ==> Storable(fs[i].1, Untyped(TagOf(fs[i].1)), depth)
  }

  /** A struct under a schema: every schema field of its type, the others only where allowed. */
  ghost predicate StorableBy(fs: Fields, s: Schema, depth: nat)
    decreases depth, s
  {
    if s.fields == [] then fs == [] && !AllowsExtras(s)
    else
      && GoodSchema(s) && Holds(s, fs)
      && (forall i :: 0 <= i < |s.fields| ==> Storable(FieldValues(s, fs)[i], s.fields[i].1, depth))
      && (AllowsExtras(s) ==> Short(Extras(s, fs)) && (Extras(s, fs) == [] || (depth > 0 && StorableFields(Extras(s, fs), depth - 1))))
  }

  lemma FieldListFits(inner: Codec<Value>, fs: Fields)
    ensures Listed(NamedValue(inner)).fits(fs) <==> Short(fs) && forall i :: 0 <= i < |fs| ==> inner.fits(fs[i].1)
    ensures StructOf(inner).fits(fs) <==> Sorted(fs) && Short(fs) && forall i :: 0 <= i < |fs| ==> inner.fits(fs[i].1)
  {
    hide Sorted, SmallStringCodec, Pair;
    PairShape(SmallStringCodec(), inner);
    NamesFit();
  }

  lemma ByFieldsFits(s: Schema, cs: seq<Codec<Value>>, inner: Codec<Value>, fs: Fields)
    requires |cs| == |s.fields|
    ensures ByFields(s, cs, inner).fits(fs) <==>
      if s.fields == [] then fs == [] && !AllowsExtras(s)
      else
        && GoodSchema(s) && Holds(s, fs) && (forall i :: 0 <= i < |cs| ==> cs[i].fits(FieldValues(s, fs)[i]))
        && (AllowsExtras(s) ==> Listed(NamedValue(inner)).fits(Extras(s, fs)))
  {
    hide GoodSchema, Holds, FieldValues, Extras, Listed, NamedValue;
  }

  lemma PayloadFits(depth: nat, f: FieldType, v: Value)
    ensures Payload(depth, f).fits(v) <==> TagOf(v) == f.tag && Core(depth, f).fits(v)
  {
    hide Core;
  }

  lemma ValueFits(depth: nat, v: Value)
    ensures ValueCodec(depth).fits(v) <==> Payload(depth, Untyped(TagOf(v))).fits(v)
  {
    hide Payload;
  }

  lemma InnerFits(depth: nat, v: Value)
    ensures Inner(depth).fits(v) <==> depth > 0 && ValueCodec(depth - 1).fits(v)
  {
    hide ValueCodec;
  }

  /** The values a payload can be written for are the storable ones. */
  lemma {:induction false} FitsIs(depth: nat, f: FieldType, v: Value)
    ensures Payload(depth, f).fits(v) <==> Storable(v, f, depth)
    decreases depth, f
  {
    hide Core, Storable, Payload;
    PayloadFits(depth, f, v);
    if TagOf(v) != f.tag {
      NotStorable(depth, f, v);
    } else {
      match v {
        case Nothing => OtherFits(depth, f, v);
        case Dynamic(x) => DynamicFits(depth, f, v);
        case Values(xs) => ItemsFit(depth, f, v);
        case Record(fs) => RecordFits(depth, f, v);
        case Records(s, rows) => RecordsFits(depth, f, v);
        case _ => OtherFits(depth, f, v);
      }
    }
  }

  lemma NotStorable(depth: nat, f: FieldType, v: Value)
    requires TagOf(v) != f.tag
    ensures !Storable(v, f, depth)
  {
  }

  lemma OtherFits(depth: nat, f: FieldType, v: Value)
    requires TagOf(v) == f.tag && !v.Dynamic? && !v.Values? && !v.Record? && !v.Records?
    ensures Core(depth, f).fits(v) <==> Storable(v, f, depth)
  {
    hide FlatFits, FlatCodec, ValueCodec, StructBy;
    FlatFitsIs(f.tag, v);
    if v.Nothing? {
      var inner := Inner(depth);
      assert Core(depth, f) == DynamicOf(inner);
    } else {
      FlatTags(v);
    }
  }

  lemma FlatTags(v: Value)
    requires !v.Nothing? && !v.Dynamic? && !v.Values? && !v.Record? && !v.Records?
    ensures TagOf(v) != DYNAMIC && TagOf(v) != ARRAY && TagOf(v) != STRUCT && TagOf(v) != ARRAY_STRUCT
  {
  }

  lemma {:induction false} ValueFitsIs(depth: nat, v: Value)
    ensures ValueCodec(depth).fits(v) <==> Storable(v, Untyped(TagOf(v)), depth)
    decreases depth
  {
    hide Payload, ValueCodec, Storable;
    ValueFits(depth, v);
    FitsIs(depth, Untyped(TagOf(v)), v);
  }

  lemma {:induction false} DynamicFits(depth: nat, f: FieldType, v: Value)
    requires TagOf(v) == f.tag && v.Dynamic?
    ensures Core(depth, f).fits(v) <==> Storable(v, f, depth)
    decreases depth, f, 2
  {
    hide ValueCodec;
    InnerFits(depth, v.inner);
    if depth > 0 { ValueFitsIs(depth - 1, v.inner); }
    assert Core(depth, f) == DynamicOf(Inner(depth));
  }

  lemma {:induction false} ItemsFit(depth: nat, f: FieldType, v: Value)
    requires TagOf(v) == f.tag && v.Values?
    ensures Core(depth, f).fits(v) <==> Storable(v, f, depth)
    decreases depth, f, 2
  {
    hide ValueCodec, ArrayOf, Inner;
    forall i | 0 <= i < |v.items|
      ensures Inner(depth).fits(v.items[i]) <==> depth > 0 && Storable(v.items[i], Untyped(TagOf(v.items[i])), depth - 1)
    {
      InnerFits(depth, v.items[i]);
      if depth > 0 { ValueFitsIs(depth - 1, v.items[i]); }
    }
    ItemsShape(Inner(depth), v);
    ItemsCore(depth, f);
    hide ItemsOf, Core;
  }

  lemma ItemsShape(inner: Codec<Value>, v: Value)
    requires v.Values?
    ensures ItemsOf(inner).fits(v) <==> Short(v.items) && forall i :: 0 <= i < |v.items| ==> inner.fits(v.items[i])
  {
    ArrayShape(inner, 1, v.items);
  }

  lemma ItemsCore(depth: nat, f: FieldType)
    requires f.tag == ARRAY
    ensures Core(depth, f) == ItemsOf(Inner(depth))
  {
    hide ItemsOf, ValueCodec;
  }

  ghost predicate AllInside(depth: nat, fs: Fields) {
    forall i :: 0 <= i < |fs| ==> Inner(depth).fits(fs[i].1)
  }

  lemma InsideIs(depth: nat, fs: Fields)
    requires depth > 0 ==> forall i :: 0 <= i < |fs| ==>
      (ValueCodec(depth - 1).fits(fs[i].1) <==> Storable(fs[i].1, Untyped(TagOf(fs[i].1)), depth - 1))
    ensures AllInside(depth, fs) <==> fs == [] || (depth > 0 && StorableFields(fs, depth - 1))
  {
    hide ValueCodec, Storable, Inner;
    forall i | 0 <= i < |fs| ensures Inner(depth).fits(fs[i].1) <==> depth > 0 && ValueCodec(depth - 1).fits(fs[i].1) {
      InnerFits(depth, fs[i].1);
    }
    if fs != [] && depth == 0 { InnerFits(depth, fs[0].1); }
  }

  lemma {:induction false} StructByFits(depth: nat, s: Schema, fs: Fields)
    ensures StructBy(depth, s).fits(fs) <==> StorableBy(fs, s, depth)
    decreases depth, s
  {
    hide Payload, Inner, Storable, ByFields, GoodSchema, Holds, FieldValues, Extras, StorableFields, Listed, NamedValue, StructBy, ValueCodec;
    StructByIs(depth, s);
    ByFieldsFits(s, RowCodecs(depth, s), Inner(depth), fs);
    forall i | 0 <= i < |s.fields|
      ensures RowCodecs(depth, s)[i].fits(FieldValues(s, fs)[i]) <==> Storable(FieldValues(s, fs)[i], s.fields[i].1, depth)
    {
      FitsIs(depth, s.fields[i].1, FieldValues(s, fs)[i]);
    }
    FieldListFits(Inner(depth), Extras(s, fs));
    forall i | depth > 0 && 0 <= i < |Extras(s, fs)|
      ensures ValueCodec(depth - 1).fits(Extras(s, fs)[i].1) <==> Storable(Extras(s, fs)[i].1, Untyped(TagOf(Extras(s, fs)[i].1)), depth - 1)
    {
      ValueFitsIs(depth - 1, Extras(s, fs)[i].1);
    }
    InsideIs(depth, Extras(s, fs));
  }

  lemma {:induction false} RecordFits(depth: nat, f: FieldType, v: Value)
    requires TagOf(v) == f.tag && v.Record?
    ensures Core(depth, f).fits(v) <==> Storable(v, f, depth)
    decreases depth, f, 2
  {
    hide ValueCodec, StructBy, StructOf, StorableBy, StorableFields, Sorted;
    var fs := v.fields;
    forall i | depth > 0 && 0 <= i < |fs|
      ensures ValueCodec(depth - 1).fits(fs[i].1) <==> Storable(fs[i].1, Untyped(TagOf(fs[i].1)), depth - 1)
    {
      ValueFitsIs(depth - 1, fs[i].1);
    }
    InsideIs(depth, fs);
    FieldListFits(Inner(depth), fs);
    if f.structure.fields != [] { StructByFits(depth, f.structure, fs); }
    assert Core(depth, f) == RecordOf(if f.structure.fields == [] then StructOf(Inner(depth)) else StructBy(depth, f.structure));
  }

  lemma {:induction false} RecordsFits(depth: nat, f: FieldType, v: Value)
    requires TagOf(v) == f.tag && v.Records?
    ensures Core(depth, f).fits(v) <==> Storable(v, f, depth)
    decreases depth, f, 2
  {
    hide ValueCodec, StructBy, StructOf, StorableBy, SchemaFits, SchemaCodec;
    var rows := v.rows;
    if f.structure.fields != [] {
      forall i | 0 <= i < |rows| ensures StructBy(depth, f.structure).fits(rows[i]) <==> StorableBy(rows[i], f.structure, depth) {
        StructByFits(depth, f.structure, rows[i]);
      }
      assert Core(depth, f) == RecordsBy(f.structure, StructBy(depth, f.structure));
    } else if depth > 0 {
      var rowOf := (s: Schema) => StructBy(depth - 1, s);
      forall i | 0 <= i < |rows| ensures rowOf(v.schema).fits(rows[i]) <==> StorableBy(rows[i], v.schema, depth - 1) {
        StructByFits(depth - 1, v.schema, rows[i]);
      }
      SchemaFitsIs(v.schema, depth);
      assert Core(depth, f) == SelfDescribed(SchemaCodec(depth), rowOf, StructOf(ValueCodec(depth - 1)));
    }
  }

  // ---- round trips --------------------------------------------------------------------------

  /** Every storable value comes back from its image, whatever follows it; the reader takes exactly the
      image and accepts no strict prefix of it. */
  lemma ValueRoundTrip(v: Value, depth: nat, rest: seq<Byte>)
    requires Storable(v, Untyped(TagOf(v)), depth)
    ensures ReadValue(ValueCodec(depth).enc(v) + rest) == Some((v, |ValueCodec(depth).enc(v)|))
    ensures forall k :: 0 <= k < |ValueCodec(depth).enc(v)| ==> ReadValue(ValueCodec(depth).enc(v)[..k]) == None
  {
    hide ValueCodec, StructBy, ReadValue, ReadStruct, Storable;
    var image := ValueCodec(depth).enc(v);
    var enough := depth + |image + rest| + 1;
    ValueFitsIs(depth, v);
    ValueGrows(depth, enough);
    ValueFaithful(enough);
    FaithfulReadsBack(ValueCodec(enough), v, rest);
    ReadersAreUnbounded(image + rest, EMPTY_SCHEMA, enough);
    forall k | 0 <= k < |image| ensures ReadValue(image[..k]) == None {
      PrefixRefused(ValueCodec(enough), v, k);
      ReadersAreUnbounded(image[..k], EMPTY_SCHEMA, enough);
    }
  }

  /** The same for a struct under a schema. */
  lemma StructRoundTrip(schema: Schema, fs: Fields, depth: nat, rest: seq<Byte>)
    requires StorableBy(fs, schema, depth)
    ensures ReadStruct(schema, StructBy(depth, schema).enc(fs) + rest) == Some((fs, |StructBy(depth, schema).enc(fs)|))
    ensures forall k :: 0 <= k < |StructBy(depth, schema).enc(fs)| ==> ReadStruct(schema, StructBy(depth, schema).enc(fs)[..k]) == None
  {
    hide ValueCodec, StructBy, ReadValue, ReadStruct, StorableBy;
    var image := StructBy(depth, schema).enc(fs);
    var enough := depth + |image + rest| + 1;
    StructByFits(depth, schema, fs);
    StructByGrows(depth, enough, schema);
    StructByFaithful(enough, schema);
    FaithfulReadsBack(StructBy(enough, schema), fs, rest);
    ReadersAreUnbounded(image + rest, schema, enough);
    forall k | 0 <= k < |image| ensures ReadStruct(schema, image[..k]) == None {
      PrefixRefused(StructBy(enough, schema), fs, k);
      ReadersAreUnbounded(image[..k], schema, enough);
    }
  }

  /** A struct whose fields are not in order is written, and so comes back, in order. */
  lemma UnsortedComesBackSorted(fs: Fields, inner: Codec<Value>, rest: seq<Byte>)
    requires Faithful(inner) && Clean(fs) && Distinct(fs) && Short(fs) && forall i :: 0 <= i < |fs| ==> inner.fits(fs[i].1)
    ensures Sorted(Sort(fs)) && SameFields(Sort(fs), fs)
    ensures StructOf(inner).dec(StructOf(inner).enc(fs) + rest) == Some((Sort(fs), |StructOf(inner).enc(fs)|))
  {
    hide Faithful, Sort, Sorted, FieldList, Clean, Distinct;
    var sorted := Sort(fs);
    SortSorted(fs);
    SortOrdered(fs);
    SortKeeps(sorted);
    forall i | 0 <= i < |sorted| ensures inner.fits(sorted[i].1) {
      assert sorted[i] in sorted && sorted[i] in fs;
    }
    FieldListFits(inner, sorted);
    StructFaithful(inner);
    FaithfulReadsBack(StructOf(inner), sorted, rest);
    assert StructOf(inner).enc(sorted) == StructOf(inner).enc(fs);
  }

  // ---- what the writer makes of other structs -----------------------------------------------

  /** What stands for a field: its value, or a zero where it is missing or of another type. */
  function Coerced(s: Schema, fs: Fields): (vs: seq<Value>)
    ensures |vs| == |s.fields|
  {
    seq(|s.fields|, i requires 0 <= i < |s.fields| =>
      if TagOf(FieldValues(s, fs)[i]) == s.fields[i].1.tag then FieldValues(s, fs)[i] else ZeroOf(s.fields[i].1.tag))
  }

  lemma {:induction false} SameRow(cs: seq<Codec<Value>>, vs: seq<Value>, ws: seq<Value>)
    requires |cs| == |vs| == |ws| && forall i :: 0 <= i < |cs| ==> cs[i].enc(vs[i]) == cs[i].enc(ws[i])
    ensures EncRow(cs, vs) == EncRow(cs, ws)
  {
    if cs != [] {
      forall i | 0 <= i < |cs| - 1 ensures cs[1..][i].enc(vs[1..][i]) == cs[1..][i].enc(ws[1..][i]) {
        assert cs[i + 1].enc(vs[i + 1]) == cs[i + 1].enc(ws[i + 1]);
      }
      SameRow(cs[1..], vs[1..], ws[1..]);
    }
  }

  lemma PayloadCoerces(depth: nat, f: FieldType, v: Value)
    ensures Payload(depth, f).enc(v) == Payload(depth, f).enc(if TagOf(v) == f.tag then v else ZeroOf(f.tag))
  {
    hide Core;
  }

  lemma RowCoerces(depth: nat, s: Schema, fs: Fields)
    ensures EncRow(RowCodecs(depth, s), FieldValues(s, fs)) == EncRow(RowCodecs(depth, s), Coerced(s, fs))
  {
    hide Payload, FieldValues, EncRow;
    forall i | 0 <= i < |s.fields|
      ensures RowCodecs(depth, s)[i].enc(FieldValues(s, fs)[i]) == RowCodecs(depth, s)[i].enc(Coerced(s, fs)[i])
    {
      PayloadCoerces(depth, s.fields[i].1, FieldValues(s, fs)[i]);
    }
    SameRow(RowCodecs(depth, s), FieldValues(s, fs), Coerced(s, fs));
  }

  lemma PlainReadsAs(s: Schema, cs: seq<Codec<Value>>, fs: Fields, vs: seq<Value>, rest: seq<Byte>)
    requires AllFaithful(cs) && RowFits(cs, vs) && EncRow(cs, FieldValues(s, fs)) == EncRow(cs, vs)
    ensures PlainFields(s, cs).dec(PlainFields(s, cs).enc(fs) + rest) == Some((Assemble(s, vs, []), |PlainFields(s, cs).enc(fs)|))
  {
    hide AllFaithful, RowFits, EncRow, DecRow, FieldValues, Assemble;
    RowReadsBack(cs, vs, rest);
  }

  lemma OpenReadsAs(s: Schema, cs: seq<Codec<Value>>, inner: Codec<Value>, fs: Fields, vs: seq<Value>, rest: seq<Byte>)
    requires AllFaithful(cs) && Faithful(inner) && RowFits(cs, vs) && EncRow(cs, FieldValues(s, fs)) == EncRow(cs, vs)
    requires Listed(NamedValue(inner)).fits(ExtrasWritten(s, fs))
    ensures OpenFields(s, cs, inner).dec(OpenFields(s, cs, inner).enc(fs) + rest) ==
      Some((Assemble(s, vs, ExtrasWritten(s, fs)), |OpenFields(s, cs, inner).enc(fs)|))
  {
    hide AllFaithful, Faithful, RowFits, EncRow, DecRow, FieldValues, Assemble, ExtrasWritten, Listed, NamedValue, Pair;
    var row, list := Row(cs), Listed(NamedValue(inner));
    RowFaithful(cs);
    NamedFaithful(inner);
    ListedFaithful(NamedValue(inner));
    PairShape(row, list);
    PairReadsBack(row, list, (vs, ExtrasWritten(s, fs)), rest);
  }

  /** Whatever the format makes of a struct, complete or not, the reader takes exactly the image and
      returns the schema's fields with zeroes for the missing and mistyped ones, and the extra fields
      where the schema allows any. Where it forbids them they are gone. */
  lemma WriterCompletes(depth: nat, s: Schema, fs: Fields, rest: seq<Byte>)
    requires s.fields != [] && (forall i :: 0 <= i < |s.fields| ==> Storable(Coerced(s, fs)[i], s.fields[i].1, depth))
    requires AllowsExtras(s) ==> Short(ExtrasWritten(s, fs)) && (ExtrasWritten(s, fs) == [] || (depth > 0 && StorableFields(ExtrasWritten(s, fs), depth - 1)))
    ensures
      var image, extras := StructBy(depth, s).enc(fs), if AllowsExtras(s) then ExtrasWritten(s, fs) else [];
      StructBy(depth, s).dec(image + rest) == Some((Assemble(s, Coerced(s, fs), extras), |image|))
  {
    hide Payload, Faithful, Storable, StorableFields, FieldValues, Coerced, Assemble, ExtrasWritten, PlainFields, OpenFields, Inner, Listed, NamedValue, EncRow, ValueCodec;
    var cs, extras := RowCodecs(depth, s), ExtrasWritten(s, fs);
    RowCoerces(depth, s, fs);
    forall i | 0 <= i < |cs| ensures Faithful(cs[i]) && cs[i].least >= 1 && cs[i].fits(Coerced(s, fs)[i]) {
      PayloadFaithful(depth, s.fields[i].1);
      FitsIs(depth, s.fields[i].1, Coerced(s, fs)[i]);
    }
    StructByIs(depth, s);
    if AllowsExtras(s) {
      if depth > 0 { ValueFaithful(depth - 1); }
      InnerFaithful(depth);
      forall i | depth > 0 && 0 <= i < |extras|
        ensures ValueCodec(depth - 1).fits(extras[i].1) <==> Storable(extras[i].1, Untyped(TagOf(extras[i].1)), depth - 1)
      {
        ValueFitsIs(depth - 1, extras[i].1);
      }
      InsideIs(depth, extras);
      FieldListFits(Inner(depth), extras);
      OpenReadsAs(s, cs, Inner(depth), fs, Coerced(s, fs), rest);
    } else {
      PlainReadsAs(s, cs, fs, Coerced(s, fs), rest);
    }
  }

  /** The writer's answer: every schema field was found by name. */
  predicate WriterAnswers(s: Schema, fs: Fields) {
    HasAll(s, fs)
  }

  lemma NoneLeftOver(s: Schema, fs: Fields)
    requires Extras(s, fs) == []
    ensures forall j :: 0 <= j < |fs| ==> Find(s.fields, fs[j].0).Some?
  {
    hide Find;
    ExtraFields(s, fs);
    forall j | 0 <= j < |fs| ensures Find(s.fields, fs[j].0).Some? {
      assert fs[j] in fs;
    }
  }

  function ExampleSchema(): Schema { Schema([([97], FieldType(6, EMPTY_SCHEMA))], 0) }
  function ExampleStruct(): Fields { [([97], Text([]))] }
  function ExampleReadBack(): Fields { [([97], Whole(1, 0))] }

  lemma ExampleValues()
    ensures FieldValues(ExampleSchema(), ExampleStruct()) == [Text([])] && Coerced(ExampleSchema(), ExampleStruct()) == [Whole(1, 0)]
    ensures Assemble(ExampleSchema(), [Whole(1, 0)], []) == ExampleReadBack()
    ensures HasAll(ExampleSchema(), ExampleStruct())
  {
  }

  lemma ExamplePayload()
    ensures Payload(1, FieldType(6, EMPTY_SCHEMA)).enc(Text([])) == [0] && Storable(Whole(1, 0), FieldType(6, EMPTY_SCHEMA), 1)
  {
    hide ValueCodec;
    assert LittleEndian(0, 1) == [0];
  }

  /** The answer does not look at types: a text under the name of a one-byte number is answered as
      written, and a zero comes back. */
  lemma AnswerMissesTypes(rest: seq<Byte>)
    ensures WriterAnswers(ExampleSchema(), ExampleStruct())
    ensures StructBy(1, ExampleSchema()).enc(ExampleStruct()) == [0]
    ensures StructBy(1, ExampleSchema()).dec([0] + rest) == Some((ExampleReadBack(), 1))
  {
    hide Payload, FieldValues, Coerced, Assemble, ValueCodec, Storable, HasAll, Inner, NoFields, OpenFields, StorableFields;
    var s, fs := ExampleSchema(), ExampleStruct();
    ExampleValues();
    ExamplePayload();
    StructByIs(1, s);
    assert RowCodecs(1, s) == [Payload(1, FieldType(6, EMPTY_SCHEMA))];
    assert EncRow(RowCodecs(1, s), [Text([])]) == [0] + EncRow(RowCodecs(1, s)[1..], []);
    WriterCompletes(1, s, fs, rest);
  }

  function OddSchema(): Schema { Schema([([0], FieldType(6, EMPTY_SCHEMA))], 0) }
  function OddStruct(): Fields { [([0], Whole(1, 5))] }

  lemma OddValues()
    ensures FieldValues(OddSchema(), OddStruct()) == [Whole(1, 5)] && Coerced(OddSchema(), OddStruct()) == [Whole(1, 5)]
    ensures Assemble(OddSchema(), [Whole(1, 5)], []) == OddStruct() && Storable(Whole(1, 5), FieldType(6, EMPTY_SCHEMA), 1)
  {
    assert Find(OddStruct(), [0]) == Some(Whole(1, 5));
  }

  lemma OddIsNotStorable()
    ensures !StorableBy(OddStruct(), OddSchema(), 1)
  {
    assert OddSchema().fields[0].0[0] == 0;
  }

  /** Storable is enough but not needed: a field whose name is a zero byte is none of the names this model
      calls usable, and alone in its struct it comes back all the same. */
  lemma NotOnlyTheStorable(rest: seq<Byte>)
    ensures !StorableBy(OddStruct(), OddSchema(), 1)
    ensures
      var image := StructBy(1, OddSchema()).enc(OddStruct());
      StructBy(1, OddSchema()).dec(image + rest) == Some((OddStruct(), |image|))
  {
    hide StructBy, FieldValues, Coerced, Assemble, Storable, StorableBy, StorableFields, ExtrasWritten;
    OddIsNotStorable();
    OddValues();
    WriterCompletes(1, OddSchema(), OddStruct(), rest);
  }

  // ---- where a round trip fails, exactly ----------------------------------------------------

  /** A null pointer comes back as a pointer to an empty array of values. */
  lemma NullComesBackEmpty(depth: nat, rest: seq<Byte>)
    requires depth > 0
    ensures ReadValue(ValueCodec(depth).enc(Nothing) + rest) == Some((Dynamic(Values([])), |ValueCodec(depth).enc(Nothing)|))
  {
    hide ReadValue;
    var empty := Dynamic(Values([]));
    ValueRoundTrip(empty, depth, rest);
    NullImage(depth);
  }

  lemma NullImage(depth: nat)
    requires depth > 0
    ensures ValueCodec(depth).enc(Nothing) == ValueCodec(depth).enc(Dynamic(Values([])))
  {
    assert Core(depth, Untyped(DYNAMIC)) == DynamicOf(ValueCodec(depth - 1)) by { hide ValueCodec; }
    hide Core;
  }

  /** Under a schema without fields only the empty struct comes back, and only without extras: the
      writer then writes their count, which the reader leaves unread. */
  lemma NoFieldsExactly(depth: nat, s: Schema, fs: Fields, rest: seq<Byte>)
    requires s.fields == []
    ensures
      StructBy(depth, s).dec(StructBy(depth, s).enc(fs) + rest) == Some((fs, |StructBy(depth, s).enc(fs)|))
      <==> fs == [] && !AllowsExtras(s)
  {
    hide ValueCodec, StructBy, NoFields;
    RowReadsNothing(depth, s, StructBy(depth, s).enc(fs) + rest);
    StructByIs(depth, s);
    assert ByFields(s, RowCodecs(depth, s), Inner(depth)) == NoFields(s, Inner(depth));
    CountIsWritten(s, Inner(depth), fs);
  }

  lemma CountIsWritten(s: Schema, inner: Codec<Value>, fs: Fields)
    ensures NoFields(s, inner).enc(fs) == [] <==> !AllowsExtras(s)
  {
    hide ExtrasWritten, EncAll, NamedValue, LittleEndian;
    assert |Listed(NamedValue(inner)).enc(ExtrasWritten(s, fs))| >= 4;
  }

  lemma SchemaTaken(depth: nat, s: seq<Byte>)
    requires SchemaCodec(depth).dec(s).Some? && SchemaCodec(depth).dec(s).value.0.fields == []
    ensures SchemaCodec(depth).dec(s).value.1 == 5
  {
    hide TypeOf, SmallStringCodec, LengthDec, Number, Pair;
    var inner := if depth == 0 then Bottom(5) else SchemaCodec(depth - 1);
    assert SchemaCodec(depth) == SchemaAround(inner);
    PairDec(ArrayOf(NamedType(inner), 1), U8Codec(), s);
    var n := LengthDec(s, 1).value.0;
    EmptyArrayTaken(NamedType(inner), s);
  }

  lemma EmptyArrayTaken<T(!new)>(c: Codec<T>, s: seq<Byte>)
    ensures ArrayOf(c, 1).dec(s).Some? && ArrayOf(c, 1).dec(s).value.0 == [] ==> ArrayOf(c, 1).dec(s).value.1 == 4
  {
    hide LengthDec;
    if ArrayOf(c, 1).dec(s).Some? {
      CountIsLength(c, LengthDec(s, 1).value.0, s[4..]);
    }
  }

  lemma {:induction false} CountIsLength<T(!new)>(c: Codec<T>, n: nat, s: seq<Byte>)
    ensures DecAll(c, n, s).Some? ==> |DecAll(c, n, s).value.0| == n && (n == 0 ==> DecAll(c, n, s).value.1 == 0)
  {
    if n > 0 { CountIsLength(c, n - 1, s); }
  }

  lemma {:induction false} RowsWithoutFields(row: Codec<Fields>, n: nat, s: seq<Byte>)
    requires forall b: seq<Byte> :: row.dec(b) == Some(([], 0))
    ensures DecAll(row, n, s).Some? && DecAll(row, n, s).value.1 == 0
    ensures forall i :: 0 <= i < |DecAll(row, n, s).value.0| ==> DecAll(row, n, s).value.0[i] == []
  {
    if n > 0 { RowsWithoutFields(row, n - 1, s); }
  }

  /** The image of a row holds its four-byte count, and nothing else where the row is empty. */
  lemma RowImage(inner: Codec<Value>, fs: Fields)
    ensures |StructOf(inner).enc(fs)| >= 4 && (fs == [] ==> |StructOf(inner).enc(fs)| == 4)
  {
    hide EncAll, NamedValue, LittleEndian, Sort;
    if fs == [] {
      NoFieldsSorted();
      NoItems(NamedValue(inner));
    }
  }

  lemma NoFieldsSorted()
    ensures Sort<Value>([]) == []
  {
  }

  lemma {:induction false} RowImages(inner: Codec<Value>, rows: seq<Fields>)
    ensures |EncAll(StructOf(inner), rows)| >= 4 * |rows|
    ensures (forall i :: 0 <= i < |rows| ==> rows[i] == []) ==> |EncAll(StructOf(inner), rows)| == 4 * |rows|
  {
    hide StructOf;
    if rows != [] {
      var n := |rows| - 1;
      RowImages(inner, rows[..n]);
      RowImage(inner, rows[n]);
    }
  }

  /** An array of structs that carries its schema comes back exactly when it has elements under a schema
      with fields, or no elements and no schema at all. Without elements the reader skips the schema that
      was written; without schema fields it takes the first elements for the schema, whatever those
      elements hold. */
  lemma StructArrayExactly(depth: nat, s: Schema, rows: seq<Fields>, rest: seq<Byte>)
    requires depth > 0 && Short(rows) && SchemaFits(s, depth)
    requires s.fields != [] ==> forall i :: 0 <= i < |rows| ==> StorableBy(rows[i], s, depth - 1)
    ensures
      var c, v := Core(depth, Untyped(ARRAY_STRUCT)), Records(s, rows);
      c.dec(c.enc(v) + rest) == Some((v, |c.enc(v)|)) <==> if rows == [] then s == EMPTY_SCHEMA else s.fields != []
  {
    hide ValueCodec, StructBy, StorableBy, SchemaFits, SchemaCodec, Storable, Core;
    var f, v := Untyped(ARRAY_STRUCT), Records(s, rows);
    if rows == [] && s != EMPTY_SCHEMA {
      SchemaSkipped(depth, s, rest);
    } else if rows != [] && s.fields == [] {
      ElementsMistaken(depth, s, rows, rest);
    } else {
      StorableArray(depth, s, rows);
      RecordsFits(depth, f, v);
      CoreFaithful(depth, f);
      FaithfulReadsBack(Core(depth, f), v, rest);
    }
  }

  lemma StorableArray(depth: nat, s: Schema, rows: seq<Fields>)
    requires depth > 0 && Short(rows) && SchemaFits(s, depth) && forall i :: 0 <= i < |rows| ==> StorableBy(rows[i], s, depth - 1)
    requires if rows == [] then s == EMPTY_SCHEMA else s.fields != []
    ensures Storable(Records(s, rows), Untyped(ARRAY_STRUCT), depth)
  {
    hide StorableBy;
  }

  lemma DescribedIs(depth: nat)
    requires depth > 0
    ensures
      var rowOf := (s: Schema) => StructBy(depth - 1, s);
      Core(depth, Untyped(ARRAY_STRUCT)) == SelfDescribed(SchemaCodec(depth), rowOf, StructOf(ValueCodec(depth - 1)))
  {
    hide ByFields, ValueCodec, SelfDescribed, StructOf, SchemaCodec;
  }

  lemma SchemaSkipped(depth: nat, s: Schema, rest: seq<Byte>)
    requires depth > 0 && s != EMPTY_SCHEMA
    ensures
      var c, v := Core(depth, Untyped(ARRAY_STRUCT)), Records(s, []);
      c.dec(c.enc(v) + rest) != Some((v, |c.enc(v)|))
  {
    hide ValueCodec, ByFields, SchemaCodec, StructOf, LengthDec, LittleEndian;
    DescribedIs(depth);
    hide Core;
    var c, v := Core(depth, Untyped(ARRAY_STRUCT)), Records(s, []);
    var body := c.enc(v)[4..] + rest;
    assert c.enc(v) + rest == LittleEndian(0, 4) + body;
    LengthReadsBack(0, 1, body);
  }

  lemma ElementsMistaken(depth: nat, s: Schema, rows: seq<Fields>, rest: seq<Byte>)
    requires depth > 0 && Short(rows) && rows != [] && s.fields == []
    ensures
      var c, v := Core(depth, Untyped(ARRAY_STRUCT)), Records(s, rows);
      c.dec(c.enc(v) + rest) != Some((v, |c.enc(v)|))
  {
    hide ValueCodec, SchemaCodec, StructOf, LengthDec, LittleEndian, DecAll, EncAll, StructBy;
    var rowOf := (x: Schema) => StructBy(depth - 1, x);
    DescribedIs(depth);
    hide Core;
    var c, v := Core(depth, Untyped(ARRAY_STRUCT)), Records(s, rows);
    RowImages(ValueCodec(depth - 1), rows);
    var answer := c.dec(c.enc(v) + rest);
    if answer == Some((v, |c.enc(v)|)) {
      var body := c.enc(v)[4..] + rest;
      assert c.enc(v) + rest == LittleEndian(|rows|, 4) + body;
      LengthReadsBack(|rows|, 1, body);
      assert (LittleEndian(|rows|, 4) + body)[4..] == body;
      var (schema, k) := SchemaCodec(depth).dec(body).value;
      SchemaTaken(depth, body);
      forall b: seq<Byte> ensures rowOf(schema).dec(b) == Some(([], 0)) {
        RowReadsNothing(depth - 1, schema, b);
      }
      RowsWithoutFields(rowOf(schema), |rows|, body[k..]);
    }
  }

  lemma RowReadsNothing(depth: nat, s: Schema, b: seq<Byte>)
    requires s.fields == []
    ensures StructBy(depth, s).dec(b) == Some(([], 0))
  {
    hide ValueCodec;
    StructByIs(depth, s);
    assert ByFields(s, RowCodecs(depth, s), Inner(depth)) == NoFields(s, Inner(depth));
  }
}
