/** The readers of values that hold other values, by recursion on the cursor. */
module VmReaders {
  import opened Wrappers
  import opened Words64
  import opened Codecs
  import opened WireFormat
  import opened Views
  import opened FaithfulCodecs
  import opened VmNames
  import opened VmValues
  import opened VmFlat
  import opened VmSchemas
  import opened VmStructs
  import opened VmCodec
  import opened VmViews

  // ---- the fields of a schema one after another ---------------------------------------------

  function Prefixed(vs: seq<Value>, used: nat, a: Answer<seq<Value>>): Answer<seq<Value>> {
    if a.None? then None else Some((vs + a.value.0, used + a.value.1))
  }

  /** The first fields of the row are read; what is left decides the rest. */
  ghost predicate RowSoFar(cs: seq<Codec<Value>>, s: seq<Byte>, vs: seq<Value>, bytes: seq<Byte>) {
    && |vs| <= |cs| && |bytes| <= |s| && bytes == s[|s| - |bytes|..]
    && DecRow(cs, s) == Prefixed(vs, |s| - |bytes|, DecRow(cs[|vs|..], bytes))
  }

  lemma RowStarts(cs: seq<Codec<Value>>, s: seq<Byte>)
    ensures RowSoFar(cs, s, [], s)
  {
    var a := DecRow(cs, s);
    assert cs[0..] == cs && s[0..] == s;
    if a.Some? { assert [] + a.value.0 == a.value.0; }
  }

  lemma RowStep(cs: seq<Codec<Value>>, s: seq<Byte>)
    requires cs != []
    ensures
      var head := cs[0].dec(s);
      DecRow(cs, s) ==
        if head.None? || head.value.1 > |s| then None
        else Prefixed([head.value.0], head.value.1, DecRow(cs[1..], s[head.value.1..]))
  {
  }

  lemma RowNext(cs: seq<Codec<Value>>, s: seq<Byte>, vs: seq<Value>, s0: seq<Byte>, s1: seq<Byte>, fail: bool, out: Option<Value>)
    requires |vs| < |cs| && RowSoFar(cs, s, vs, s0) && Reads(cs[|vs|], s0, s1, fail, out)
    ensures out.Some? ==> !fail && |s1| <= |s0| && RowSoFar(cs, s, vs + [out.value], s1)
    ensures out.None? ==> DecRow(cs, s).None?
  {
    hide DecRow;
    var left := cs[|vs|..];
    RowStep(left, s0);
    assert left[0] == cs[|vs|];
    if out.Some? {
      var n := cs[|vs|].dec(s0).value.1;
      assert left[1..] == cs[|vs| + 1..];
      assert s0[n..] == s1 && s1 == s[|s| - |s1|..];
      var a := DecRow(left[1..], s1);
      if a.Some? { assert vs + ([out.value] + a.value.0) == vs + [out.value] + a.value.0; }
    }
  }

  lemma RowEnds(cs: seq<Codec<Value>>, s: seq<Byte>, vs: seq<Value>, bytes: seq<Byte>)
    requires |vs| == |cs| && RowSoFar(cs, s, vs, bytes)
    ensures Reads(Row(cs), s, bytes, false, Some(vs))
  {
    assert cs[|vs|..] == [];
    assert vs + [] == vs;
  }

  // ---- values -------------------------------------------------------------------------------

  lemma InnerOf(depth: nat)
    requires depth > 0
    ensures Inner(depth) == ValueCodec(depth - 1)
  {
    hide ValueCodec;
  }

  /** A type byte, then the payload it names. */
  method ReadVariable(r: ReadView, ghost depth: nat) returns (out: Option<Value>)
    requires !r.fail && |r.bytes| <= depth
    modifies r`bytes, r`fail
    ensures Reads(ValueCodec(depth), old(r.bytes), r.bytes, r.fail, out)
    ensures out.Some? ==> !r.fail
    decreases 2 * depth
  {
    hide Reads, Payload;
    ghost var s := r.bytes;
    var tag := ReadTag(r);
    if tag.None? {
      EmptyTagged((v: Value) => TagOf(v), (tag: Byte) => Payload(depth, Untyped(tag)), r.bytes, r.fail);
      return None;
    }
    out := ReadPayload(Untyped(tag.value), r, depth);
    TaggedReads((v: Value) => TagOf(v), (tag: Byte) => Payload(depth, Untyped(tag)), s, r.bytes, r.fail, out);
  }

  lemma PayloadReads(depth: nat, f: FieldType, s0: seq<Byte>, s1: seq<Byte>, fail: bool, out: Option<Value>)
    requires Reads(Core(depth, f), s0, s1, fail, out)
    ensures Reads(Payload(depth, f), s0, s1, fail, out)
  {
    hide Core;
  }

  /** The switch over the type. */
  method ReadPayload(f: FieldType, r: ReadView, ghost depth: nat) returns (out: Option<Value>)
    requires !r.fail && |r.bytes| < depth
    modifies r`bytes, r`fail
    ensures Reads(Payload(depth, f), old(r.bytes), r.bytes, r.fail, out)
    ensures out.Some? ==> !r.fail
    decreases 2 * depth, f
  {
    hide Reads, Payload, ValueCodec, StructBy, StructOf, DynamicOf, ItemsOf, RecordOf, RecordsBy, SelfDescribed, FlatCodec, Core;
    ghost var s := r.bytes;
    InnerOf(depth);
    if f.tag == DYNAMIC {
      var inner := ReadVariable(r, depth - 1);
      DynamicReads(ValueCodec(depth - 1), s, r.bytes, r.fail, inner);
      out := if inner.None? then None else Some(Dynamic(inner.value));
    } else if f.tag == ARRAY {
      var items := ReadVariables(r, depth - 1);
      ItemsRead(ValueCodec(depth - 1), s, r.bytes, r.fail, items);
      out := if items.None? then None else Some(Values(items.value));
    } else if f.tag == STRUCT {
      var fields;
      if f.structure.fields == [] {
        fields := ReadFields(r, depth - 1);
        RecordReads(StructOf(ValueCodec(depth - 1)), s, r.bytes, r.fail, fields);
      } else {
        fields := ReadStructBy(f.structure, r, depth);
        RecordReads(StructBy(depth, f.structure), s, r.bytes, r.fail, fields);
      }
      out := if fields.None? then None else Some(Record(fields.value));
    } else if f.tag == ARRAY_STRUCT {
      out := ReadRecords(f, r, depth);
    } else {
      out := ReadFlat(f.tag, r);
    }
    CoreIs(depth, f);
    PayloadReads(depth, f, s, r.bytes, r.fail, out);
  }

  /** The layout of each type that holds values. */
  lemma CoreIs(depth: nat, f: FieldType)
    requires depth > 0
    ensures f.tag == DYNAMIC ==> Core(depth, f) == DynamicOf(ValueCodec(depth - 1))
    ensures f.tag == ARRAY ==> Core(depth, f) == ItemsOf(ValueCodec(depth - 1))
    ensures f.tag == STRUCT && f.structure.fields == [] ==> Core(depth, f) == RecordOf(StructOf(ValueCodec(depth - 1)))
    ensures f.tag == STRUCT && f.structure.fields != [] ==> Core(depth, f) == RecordOf(StructBy(depth, f.structure))
    ensures f.tag !in {DYNAMIC, ARRAY, STRUCT, ARRAY_STRUCT} ==> Core(depth, f) == FlatCodec(f.tag)
  {
    hide ValueCodec, StructBy, StructOf, DynamicOf, ItemsOf, RecordOf, RecordsBy, SelfDescribed, FlatCodec;
  }

  lemma DynamicReads(inner: Codec<Value>, s0: seq<Byte>, s1: seq<Byte>, fail: bool, x: Option<Value>)
    requires Reads(inner, s0, s1, fail, x)
    ensures Reads(DynamicOf(inner), s0, s1, fail, if x.Some? then Some(Dynamic(x.value)) else None)
  {
  }

  lemma ItemsRead(inner: Codec<Value>, s0: seq<Byte>, s1: seq<Byte>, fail: bool, x: Option<seq<Value>>)
    requires Reads(ArrayOf(inner, 1), s0, s1, fail, x)
    ensures Reads(ItemsOf(inner), s0, s1, fail, if x.Some? then Some(Values(x.value)) else None)
  {
    hide Reads, ArrayOf;
    VariantReads(ArrayOf(inner, 1), (vs: seq<Value>) => Values(vs), (v: Value) => ItemsIn(v), s0, s1, fail, x);
  }

  lemma RecordReads(fields: Codec<Fields>, s0: seq<Byte>, s1: seq<Byte>, fail: bool, x: Option<Fields>)
    requires Reads(fields, s0, s1, fail, x)
    ensures Reads(RecordOf(fields), s0, s1, fail, if x.Some? then Some(Record(x.value)) else None)
  {
    hide Reads;
    VariantReads(fields, (fs: Fields) => Record(fs), (v: Value) => FieldsIn(v), s0, s1, fail, x);
  }

  /** A counted array of values. */
  method ReadVariables(r: ReadView, ghost depth: nat) returns (out: Option<seq<Value>>)
    requires !r.fail && |r.bytes| <= depth
    modifies r`bytes, r`fail
    ensures Reads(ArrayOf(ValueCodec(depth), 1), old(r.bytes), r.bytes, r.fail, out)
    ensures out.Some? ==> !r.fail
    decreases 2 * depth + 1, 0
  {
    hide Reads, ArrayOf, LengthDec, ReadSoFar, ValueCodec;
    ghost var s, c := r.bytes, ValueCodec(depth);
    LengthIsFour(s, 1);
    var len := ReadArrayLength(r, 1);
    if len.None? {
      NoLength(c, 1, s, r.bytes, r.fail);
      return None;
    }
    ghost var body := r.bytes;
    var items: seq<Value> := [];
    NoneRead(c, body);
    var i: nat := 0;
    while i != len.value
      invariant i <= len.value && !r.fail && |r.bytes| <= |body| && ReadSoFar(c, body, i, items, r.bytes)
    {
      ghost var before := r.bytes;
      var item := ReadVariable(r, depth);
      OneMore(c, body, i, items, before, r.bytes, r.fail, item);
      if item.None? {
        SomeRefused(c, 1, s, i + 1, len.value, r.bytes, r.fail);
        return None;
      }
      items := items + [item.value];
      i := i + 1;
    }
    AllRead(c, 1, s, len.value, items, r.bytes);
    out := Some(items);
  }

  method ReadNamed(r: ReadView, ghost depth: nat) returns (out: Option<Named<Value>>)
    requires !r.fail && |r.bytes| <= depth
    modifies r`bytes, r`fail
    ensures Reads(NamedValue(ValueCodec(depth)), old(r.bytes), r.bytes, r.fail, out)
    ensures out.Some? ==> !r.fail
    decreases 2 * depth + 1, 0
  {
    hide Reads, ValueCodec, Pair, SmallStringCodec;
    ghost var s0 := r.bytes;
    var name := ReadSmallString(r);
    NotFailed(SmallStringCodec(), s0, r.bytes, r.fail, name);
    ghost var s1, f1 := r.bytes, r.fail;
    var value: Option<Value> := None;
    if name.Some? { value := ReadVariable(r, depth); }
    PairReads(SmallStringCodec(), ValueCodec(depth), s0, s1, r.bytes, f1, r.fail, name, value);
    out := if value.None? then None else Some((name.value, value.value));
  }

  /** A known number of named values. */
  method ReadNamedValues(count: nat, r: ReadView, ghost depth: nat) returns (out: Option<Fields>)
    requires !r.fail && |r.bytes| <= depth
    modifies r`bytes, r`fail
    ensures out.Some? ==> !r.fail && ReadSoFar(NamedValue(ValueCodec(depth)), old(r.bytes), count, out.value, r.bytes)
    ensures out.None? ==> DecAll(NamedValue(ValueCodec(depth)), count, old(r.bytes)).None?
    decreases 2 * depth + 1, 1
  {
    hide Reads, ReadSoFar, ValueCodec, NamedValue, DecAll;
    ghost var body, c := r.bytes, NamedValue(ValueCodec(depth));
    var items: Fields := [];
    NoneRead(c, body);
    var i: nat := 0;
    while i != count
      invariant i <= count && !r.fail && |r.bytes| <= |body| && ReadSoFar(c, body, i, items, r.bytes)
    {
      ghost var before := r.bytes;
      var item := ReadNamed(r, depth);
      OneMore(c, body, i, items, before, r.bytes, r.fail, item);
      if item.None? {
        NeverRecovers(c, i + 1, count, body);
        return None;
      }
      items := items + [item.value];
      i := i + 1;
    }
    out := Some(items);
  }

  /** An untyped struct: a counted list of named values, put in name order. */
  method ReadFields(r: ReadView, ghost depth: nat) returns (out: Option<Fields>)
    requires !r.fail && |r.bytes| <= depth
    modifies r`bytes, r`fail
    ensures Reads(StructOf(ValueCodec(depth)), old(r.bytes), r.bytes, r.fail, out)
    ensures out.Some? ==> !r.fail
    decreases 2 * depth + 1, 2
  {
    hide Reads, LengthDec, ReadSoFar, ValueCodec, NamedValue, DecAll, Sort;
    ghost var s, c := r.bytes, NamedValue(ValueCodec(depth));
    LengthIsFour(s, 1);
    var len := ReadArrayLength(r, 1);
    if len.None? {
      NoLength(c, 1, s, r.bytes, r.fail);
      StructReads(ValueCodec(depth), s, r.bytes, r.fail, None);
      return None;
    }
    var fields := ReadNamedValues(len.value, r, depth);
    if fields.None? {
      SomeRefused(c, 1, s, len.value, len.value, r.bytes, r.fail);
      StructReads(ValueCodec(depth), s, r.bytes, r.fail, None);
      return None;
    }
    AllRead(c, 1, s, len.value, fields.value, r.bytes);
    StructReads(ValueCodec(depth), s, r.bytes, r.fail, fields);
    out := Some(Sort(fields.value));
  }

  lemma StructReads(inner: Codec<Value>, s0: seq<Byte>, s1: seq<Byte>, fail: bool, x: Option<Fields>)
    requires Reads(FieldList(inner), s0, s1, fail, x)
    ensures Reads(StructOf(inner), s0, s1, fail, if x.Some? then Some(Sort(x.value)) else None)
  {
    hide Reads, FieldList, Sort;
    MappedReads(FieldList(inner), (fs: Fields) => Sort(fs), (fs: Fields) => Sort(fs), (fs: Fields) => Sorted(fs) && FieldList(inner).fits(fs),
                s0, s1, fail, x);
  }

  // ---- structs by schema --------------------------------------------------------------------

  /** Each schema field in turn, at its type. */
  method ReadRow(s: Schema, r: ReadView, ghost depth: nat) returns (out: Option<seq<Value>>)
    requires !r.fail && |r.bytes| < depth
    modifies r`bytes, r`fail
    ensures Reads(Row(RowCodecs(depth, s)), old(r.bytes), r.bytes, r.fail, out)
    ensures out.Some? ==> !r.fail && |r.bytes| <= |old(r.bytes)| && |out.value| == |s.fields|
    decreases 2 * depth, s, 0
  {
    hide Reads, RowSoFar, Payload, DecRow;
    ghost var start, cs := r.bytes, RowCodecs(depth, s);
    var values: seq<Value> := [];
    RowStarts(cs, start);
    var i: nat := 0;
    while i != |s.fields|
      invariant i == |values| <= |s.fields| && !r.fail && |r.bytes| <= |start| && RowSoFar(cs, start, values, r.bytes)
    {
      ghost var before := r.bytes;
      var value := ReadPayload(s.fields[i].1, r, depth);
      RowNext(cs, start, values, before, r.bytes, r.fail, value);
      if value.None? {
        RowRefused(cs, start, r.bytes, r.fail);
        return None;
      }
      values := values + [value.value];
      i := i + 1;
    }
    RowEnds(cs, start, values, r.bytes);
    out := Some(values);
  }

  lemma RowRefused(cs: seq<Codec<Value>>, s: seq<Byte>, bytes: seq<Byte>, fail: bool)
    requires DecRow(cs, s).None?
    ensures Reads(Row(cs), s, bytes, fail, None)
  {
    hide DecRow;
  }

  /** The extra fields behind their count, which is not held against the bytes that remain. */
  method ReadExtras(r: ReadView, ghost depth: nat) returns (out: Option<Fields>)
    requires !r.fail && |r.bytes| <= depth
    modifies r`bytes, r`fail
    ensures Reads(Listed(NamedValue(ValueCodec(depth))), old(r.bytes), r.bytes, r.fail, out)
    ensures out.Some? ==> !r.fail
    decreases 2 * depth + 1, 2
  {
    hide ReadSoFar, ValueCodec, NamedValue, DecAll, Number;
    ghost var s := r.bytes;
    var ok, b := r.ReadBytes(4);
    if !ok {
      return None;
    }
    CountOf(b);
    assert b == s[..4];
    var extrasLen: int := AsI32(ToU32(b));
    if extrasLen < 0 {
      return None;
    }
    out := ReadNamedValues(extrasLen, r, depth);
    ExtrasRead(NamedValue(ValueCodec(depth)), s, extrasLen, out, r.bytes, r.fail);
  }

  lemma CountOf(b: seq<Byte>)
    requires |b| == 4
    ensures Number(b) < 0x1_0000_0000
    ensures AsI32(ToU32(b)) == if Number(b) < 0x8000_0000 then Number(b) else Number(b) - 0x1_0000_0000
  {
    hide Number;
    BytePowers();
    NumberWritten(b);
  }

  lemma ExtrasRead(c: Codec<Named<Value>>, s: seq<Byte>, n: nat, out: Option<Fields>, bytes: seq<Byte>, fail: bool)
    requires |s| >= 4 && Number(s[..4]) == n < 0x8000_0000
    requires out.Some? ==> !fail && ReadSoFar(c, s[4..], n, out.value, bytes)
    requires out.None? ==> DecAll(c, n, s[4..]).None?
    ensures Reads(Listed(c), s, bytes, fail, out)
  {
    hide DecAll, Number;
    if out.Some? {
      var k := DecAll(c, n, s[4..]).value.1;
      assert s[4..][k..] == s[4 + k..];
    }
  }

  method ReadStructBy(s: Schema, r: ReadView, ghost depth: nat) returns (out: Option<Fields>)
    requires !r.fail && |r.bytes| < depth
    modifies r`bytes, r`fail
    ensures Reads(StructBy(depth, s), old(r.bytes), r.bytes, r.fail, out)
    ensures out.Some? ==> !r.fail
    decreases 2 * depth, s, 1
  {
    hide Reads, StructBy, ValueCodec, RowCodecs, Row, Listed, NamedValue, Assemble, ByFields;
    StructByIs(depth, s);
    InnerOf(depth);
    ghost var start, cs, list := r.bytes, RowCodecs(depth, s), Listed(NamedValue(ValueCodec(depth - 1)));
    if s.fields == [] {
      NoFieldsRead(depth, s, start);
      return Some([]);
    }
    var values := ReadRow(s, r, depth);
    ghost var s1, f1 := r.bytes, r.fail;
    if !AllowsExtras(s) {
      PlainReads(depth, s, start, r.bytes, r.fail, values);
      return if values.None? then None else Some(Assemble(s, values.value, []));
    }
    var extras: Option<Fields> := None;
    if values.Some? { extras := ReadExtras(r, depth - 1); }
    OpenReads(depth, s, start, s1, r.bytes, f1, r.fail, values, extras);
    out := if extras.None? then None else Some(Assemble(s, values.value, extras.value));
  }

  lemma NoFieldsRead(depth: nat, s: Schema, start: seq<Byte>)
    requires s.fields == []
    ensures Reads(StructBy(depth, s), start, start, false, Some([]))
  {
    hide ValueCodec;
    StructByIs(depth, s);
    assert ByFields(s, RowCodecs(depth, s), Inner(depth)) == NoFields(s, Inner(depth));
  }

  lemma PlainReads(depth: nat, s: Schema, s0: seq<Byte>, s1: seq<Byte>, fail: bool, vs: Option<seq<Value>>)
    requires s.fields != [] && !AllowsExtras(s) && Reads(Row(RowCodecs(depth, s)), s0, s1, fail, vs)
    ensures Reads(StructBy(depth, s), s0, s1, fail, if vs.None? then None else Some(Assemble(s, vs.value, [])))
  {
    hide Reads, Row, RowCodecs, Assemble, FieldValues, PlainFits, StructBy, Inner;
    var cs := RowCodecs(depth, s);
    StructByIs(depth, s);
    MappedReads(Row(cs), (vs: seq<Value>) => Assemble(s, vs, []), (fs: Fields) => FieldValues(s, fs),
                (fs: Fields) => !AllowsExtras(s) && PlainFits(s, cs, fs), s0, s1, fail, vs);
  }

  lemma OpenReads(depth: nat, s: Schema, s0: seq<Byte>, s1: seq<Byte>, s2: seq<Byte>, f1: bool, f2: bool, vs: Option<seq<Value>>, extras: Option<Fields>)
    requires depth > 0 && s.fields != [] && AllowsExtras(s) && Reads(Row(RowCodecs(depth, s)), s0, s1, f1, vs)
    requires vs.Some? ==> Reads(Listed(NamedValue(ValueCodec(depth - 1))), s1, s2, f2, extras)
    requires vs.None? ==> extras.None?
    ensures Reads(StructBy(depth, s), s0, s2, f2, if extras.None? then None else Some(Assemble(s, vs.value, extras.value)))
  {
    hide Reads, Row, RowCodecs, Assemble, FieldValues, OpenFits, StructBy, Listed, NamedValue, ValueCodec, Pair, ExtrasWritten;
    var cs, inner := RowCodecs(depth, s), ValueCodec(depth - 1);
    InnerOf(depth);
    StructByIs(depth, s);
    var both := if extras.None? then None else Some((vs.value, extras.value));
    PairReads(Row(cs), Listed(NamedValue(inner)), s0, s1, s2, f1, f2, vs, extras);
    MappedReads(Pair(Row(cs), Listed(NamedValue(inner))), (p: (seq<Value>, Fields)) => Assemble(s, p.0, p.1),
                (fs: Fields) => (FieldValues(s, fs), ExtrasWritten(s, fs)), (fs: Fields) => OpenFits(s, cs, inner, fs), s0, s2, f2, both);
  }

  // ---- arrays of structs --------------------------------------------------------------------

  /** A known number of structs by one schema. */
  method ReadRows(count: nat, s: Schema, r: ReadView, ghost depth: nat) returns (out: Option<seq<Fields>>)
    requires !r.fail && |r.bytes| < depth
    modifies r`bytes, r`fail
    ensures out.Some? ==> !r.fail && ReadSoFar(StructBy(depth, s), old(r.bytes), count, out.value, r.bytes)
    ensures out.None? ==> DecAll(StructBy(depth, s), count, old(r.bytes)).None?
    decreases 2 * depth, s, 2
  {
    hide Reads, ReadSoFar, StructBy, DecAll;
    ghost var body, c := r.bytes, StructBy(depth, s);
    var rows: seq<Fields> := [];
    NoneRead(c, body);
    var i: nat := 0;
    while i != count
      invariant i <= count && !r.fail && |r.bytes| <= |body| && ReadSoFar(c, body, i, rows, r.bytes)
    {
      ghost var before := r.bytes;
      var row := ReadStructBy(s, r, depth);
      OneMore(c, body, i, rows, before, r.bytes, r.fail, row);
      if row.None? {
        NeverRecovers(c, i + 1, count, body);
        return None;
      }
      rows := rows + [row.value];
      i := i + 1;
    }
    out := Some(rows);
  }

  /** An array of structs: under the schema at hand, or under the one it carries. */
  method ReadRecords(f: FieldType, r: ReadView, ghost depth: nat) returns (out: Option<Value>)
    requires !r.fail && |r.bytes| < depth && f.tag == ARRAY_STRUCT
    modifies r`bytes, r`fail
    ensures Reads(Core(depth, f), old(r.bytes), r.bytes, r.fail, out)
    ensures out.Some? ==> !r.fail
    decreases 2 * depth, f, 0
  {
    hide Reads, Core, LengthDec, StructBy, SchemaCodec, ReadSoFar, DecAll;
    ghost var start := r.bytes;
    LengthIsFour(start, 1);
    var len := ReadArrayLength(r, 1);
    if len.None? {
      RecordsReadNothing(depth, f, start, r.bytes, r.fail);
      return None;
    }
    if len.value == 0 {
      NoRecords(depth, f, start);
      return Some(Records(EMPTY_SCHEMA, []));
    }
    ghost var s1 := r.bytes;
    if f.structure.fields != [] {
      var rows := ReadRows(len.value, f.structure, r, depth);
      TypedRecords(depth, f, start, len.value, rows, r.bytes, r.fail);
      return if rows.None? then None else Some(Records(f.structure, rows.value));
    }
    var schema := ReadSchema(r, depth);
    NotFailed(SchemaCodec(depth), s1, r.bytes, r.fail, schema);
    if schema.None? {
      NoSchema(depth, f, start, len.value, r.bytes, r.fail);
      return None;
    }
    ghost var s2 := r.bytes;
    var rows := ReadRows(len.value, schema.value, r, depth - 1);
    CarriedRecords(depth, f, start, len.value, schema.value, s2, rows, r.bytes, r.fail);
    out := if rows.None? then None else Some(Records(schema.value, rows.value));
  }

  lemma TypedCore(depth: nat, f: FieldType)
    requires f.tag == ARRAY_STRUCT && f.structure.fields != []
    ensures Core(depth, f) == RecordsBy(f.structure, StructBy(depth, f.structure))
  {
    hide ValueCodec, StructBy, RecordsBy;
  }

  lemma CarriedCore(depth: nat, f: FieldType, s: seq<Byte>)
    requires depth > 0 && f.tag == ARRAY_STRUCT && f.structure.fields == []
    ensures Core(depth, f).dec(s) == DescribedDec(SchemaCodec(depth), (x: Schema) => StructBy(depth - 1, x), s)
  {
    hide ValueCodec, ByFields, SchemaCodec, DescribedDec, StructOf;
  }

  lemma RecordsReadNothing(depth: nat, f: FieldType, s: seq<Byte>, bytes: seq<Byte>, fail: bool)
    requires depth > 0 && f.tag == ARRAY_STRUCT && LengthDec(s, 1).None?
    ensures Reads(Core(depth, f), s, bytes, fail, None)
  {
    hide ValueCodec, StructBy, SchemaCodec, LengthDec, Core;
    if f.structure.fields != [] { TypedCore(depth, f); } else { CarriedCore(depth, f, s); }
  }

  lemma NoRecords(depth: nat, f: FieldType, s: seq<Byte>)
    requires depth > 0 && |s| >= 4 && f.tag == ARRAY_STRUCT && LengthDec(s, 1) == Some((0, 4))
    ensures Reads(Core(depth, f), s, s[4..], false, Some(Records(EMPTY_SCHEMA, [])))
  {
    hide ValueCodec, StructBy, SchemaCodec, LengthDec, Core;
    if f.structure.fields != [] {
      TypedCore(depth, f);
      DecNone(StructBy(depth, f.structure), s[4..]);
    } else {
      CarriedCore(depth, f, s);
    }
  }

  lemma TypedRecords(depth: nat, f: FieldType, s: seq<Byte>, n: nat, rows: Option<seq<Fields>>, bytes: seq<Byte>, fail: bool)
    requires |s| >= 4 && n > 0 && f.tag == ARRAY_STRUCT && f.structure.fields != [] && LengthDec(s, 1) == Some((n, 4))
    requires rows.Some? ==> !fail && ReadSoFar(StructBy(depth, f.structure), s[4..], n, rows.value, bytes)
    requires rows.None? ==> DecAll(StructBy(depth, f.structure), n, s[4..]).None?
    ensures Reads(Core(depth, f), s, bytes, fail, if rows.None? then None else Some(Records(f.structure, rows.value)))
  {
    hide StructBy, DecAll, LengthDec, Core;
    var row := StructBy(depth, f.structure);
    TypedCore(depth, f);
    if rows.Some? {
      var k := DecAll(row, n, s[4..]).value.1;
      assert s[4..][k..] == s[4 + k..];
    }
  }

  lemma NoSchema(depth: nat, f: FieldType, s: seq<Byte>, n: nat, bytes: seq<Byte>, fail: bool)
    requires depth > 0 && |s| >= 4 && n > 0 && f.tag == ARRAY_STRUCT && f.structure.fields == [] && LengthDec(s, 1) == Some((n, 4))
    requires SchemaCodec(depth).dec(s[4..]).None?
    ensures Reads(Core(depth, f), s, bytes, fail, None)
  {
    hide StructBy, SchemaCodec, LengthDec, Core;
    CarriedCore(depth, f, s);
  }

  lemma CarriedRecords(depth: nat, f: FieldType, s: seq<Byte>, n: nat, schema: Schema, s2: seq<Byte>, rows: Option<seq<Fields>>, bytes: seq<Byte>, fail: bool)
    requires depth > 0 && |s| >= 4 && n > 0 && f.tag == ARRAY_STRUCT && f.structure.fields == [] && LengthDec(s, 1) == Some((n, 4))
    requires SchemaCodec(depth).dec(s[4..]).Some? && SchemaCodec(depth).dec(s[4..]).value.0 == schema
    requires SchemaCodec(depth).dec(s[4..]).value.1 <= |s| - 4 && s2 == s[4..][SchemaCodec(depth).dec(s[4..]).value.1..]
    requires rows.Some? ==> !fail && ReadSoFar(StructBy(depth - 1, schema), s2, n, rows.value, bytes)
    requires rows.None? ==> DecAll(StructBy(depth - 1, schema), n, s2).None?
    ensures Reads(Core(depth, f), s, bytes, fail, if rows.None? then None else Some(Records(schema, rows.value)))
  {
    hide ByFields, SchemaCodec, LengthDec, Core, DecAll;
    CarriedCore(depth, f, s);
    var row := StructBy(depth - 1, schema);
    var rowOf := (x: Schema) => StructBy(depth - 1, x);
    assert rowOf(schema) == row;
    if rows.Some? {
      var j, k := SchemaCodec(depth).dec(s[4..]).value.1, DecAll(row, n, s2).value.1;
      assert s[4..][j..][k..] == s[4 + (j + k)..];
    }
  }

  // ---- the readers on a whole view ----------------------------------------------------------

  /** Any bytes at all: the reader stops, and answers what the wire form says of them. */
  method ReadAnyVariable(r: ReadView) returns (out: Option<Value>)
    requires !r.fail
    modifies r`bytes, r`fail
    ensures match ReadValue(old(r.bytes)) {
      case None => out.None?
      case Some((v, n)) => n <= |old(r.bytes)| && out == Some(v) && r.bytes == old(r.bytes)[n..] && !r.fail
    }
  {
    hide ValueCodec;
    out := ReadVariable(r, |r.bytes|);
  }

  method ReadAnyStruct(s: Schema, r: ReadView) returns (out: Option<Fields>)
    requires !r.fail
    modifies r`bytes, r`fail
    ensures match ReadStruct(s, old(r.bytes)) {
      case None => out.None?
      case Some((fs, n)) => n <= |old(r.bytes)| && out == Some(fs) && r.bytes == old(r.bytes)[n..] && !r.fail
    }
  {
    hide StructBy;
    out := ReadStructBy(s, r, |r.bytes| + 1);
  }
}
