/** The wire form of dynamic values: a type byte and a payload, which may hold further values, structs
    and structs laid out by a schema. */
module VmCodec {
  import opened Wrappers
  import opened Words64
  import opened Codecs
  import opened WireFormat
  import opened FaithfulCodecs
  import opened VmNames
  import opened VmValues
  import opened VmFlat
  import opened VmSchemas
  import opened VmStructs

  // ---- payloads that hold other values ------------------------------------------------------

  /** A value behind a pointer. The writer puts an empty array of values where the pointer is null. */
  function DynamicOf(inner: Codec<Value>): Codec<Value> {
    Mapped(inner, (v: Value) => Dynamic(v), (v: Value) => if v.Dynamic? then v.inner else Values([]),
           (v: Value) => v.Dynamic? && inner.fits(v.inner))
  }

  function ItemsIn(v: Value): Option<seq<Value>> {
    if v.Values? then Some(v.items) else None
  }

  function ItemsOf(inner: Codec<Value>): Codec<Value> {
    Variant(ArrayOf(inner, 1), (vs: seq<Value>) => Values(vs), (v: Value) => ItemsIn(v))
  }

  function FieldsIn(v: Value): Option<Fields> {
    if v.Record? then Some(v.fields) else None
  }

  function RecordOf(fields: Codec<Fields>): Codec<Value> {
    Variant(fields, (fs: Fields) => Record(fs), (v: Value) => FieldsIn(v))
  }

  function RowsOf(v: Value): seq<Fields> {
    if v.Records? then v.rows else []
  }

  /** An empty array of structs is read back without its schema. */
  function RecordsWith(s: Schema, rows: seq<Fields>): Value {
    if rows == [] then Records(EMPTY_SCHEMA, []) else Records(s, rows)
  }

  ghost predicate RowsFit(s: Schema, row: Codec<Fields>, v: Value) {
    v.Records? && v == RecordsWith(s, v.rows) && ArrayOf(row, 1).fits(v.rows)
  }

  /** An array of structs whose schema is known to writer and reader. */
  function RecordsBy(s: Schema, row: Codec<Fields>): Codec<Value> {
    Mapped(ArrayOf(row, 1), (rows: seq<Fields>) => RecordsWith(s, rows), (v: Value) => RowsOf(v), (v: Value) => RowsFit(s, row, v))
  }

  function SchemaIn(v: Value): Schema {
    if v.Records? then v.schema else EMPTY_SCHEMA
  }

  function DescribedEnc(schemas: Codec<Schema>, rowOf: Schema -> Codec<Fields>, plain: Codec<Fields>, v: Value): seq<Byte> {
    LittleEndian(|RowsOf(v)|, 4) +
    if SchemaIn(v).fields == [] then EncAll(plain, RowsOf(v)) else schemas.enc(SchemaIn(v)) + EncAll(rowOf(SchemaIn(v)), RowsOf(v))
  }

  /** The schema and the structs after a count that is not zero. */
  function DescribedRows(schemas: Codec<Schema>, rowOf: Schema -> Codec<Fields>, n: nat, s: seq<Byte>): Answer<Value> {
    match schemas.dec(s)
    case None => None
    case Some((schema, k)) =>
      if k > |s| then None
      else
        match DecAll(rowOf(schema), n, s[k..])
        case None => None
        case Some((rows, m)) => Some((Records(schema, rows), k + m))
  }

  function DescribedDec(schemas: Codec<Schema>, rowOf: Schema -> Codec<Fields>, s: seq<Byte>): Answer<Value> {
    match LengthDec(s, 1)
    case None => None
    case Some((n, _)) =>
      if n == 0 || |s| < 4 then Some((Records(EMPTY_SCHEMA, []), 4))
      else match DescribedRows(schemas, rowOf, n, s[4..]) { case None => None case Some((v, k)) => Some((v, 4 + k)) }
  }

  ghost predicate DescribedFits(schemas: Codec<Schema>, rowOf: Schema -> Codec<Fields>, v: Value) {
    || v == Records(EMPTY_SCHEMA, [])
    || (v.Records? && v.rows != [] && Short(v.rows) && v.schema.fields != [] && schemas.fits(v.schema)
        && forall i :: 0 <= i < |v.rows| ==> rowOf(v.schema).fits(v.rows[i]))
  }

  /** An array of structs that carries its schema. Without schema fields the writer leaves the schema
      out, although the reader will look for it. */
  function SelfDescribed(schemas: Codec<Schema>, rowOf: Schema -> Codec<Fields>, plain: Codec<Fields>): Codec<Value> {
    Codec((v: Value) => DescribedEnc(schemas, rowOf, plain, v), (s: seq<Byte>) => DescribedDec(schemas, rowOf, s),
          (v: Value) => DescribedFits(schemas, rowOf, v), 4)
  }

  /** The writer puts a zeroed value where one of another type stands. */
  function Lenient(tag: Byte, core: Codec<Value>): Codec<Value> {
    Codec((v: Value) => core.enc(if TagOf(v) == tag then v else ZeroOf(tag)), (s: seq<Byte>) => core.dec(s),
          (v: Value) => TagOf(v) == tag && core.fits(v), core.least)
  }

  // ---- the recursion ------------------------------------------------------------------------

  function Untyped(tag: Byte): FieldType {
    FieldType(tag, EMPTY_SCHEMA)
  }

  /** Values nested up to a depth, with their type byte. */
  function ValueCodec(depth: nat): Codec<Value>
    decreases depth
  {
    Tagged((v: Value) => TagOf(v), (tag: Byte) => Payload(depth, Untyped(tag)))
  }

  /** What follows a type byte, or stands for a field whose schema fixes its type. */
  function Payload(depth: nat, f: FieldType): Codec<Value>
    decreases depth, f
  {
    Lenient(f.tag, Core(depth, f))
  }

  function Core(depth: nat, f: FieldType): Codec<Value>
    decreases depth, f, 0
  {
    var inner := if depth == 0 then Bottom(1) else ValueCodec(depth - 1);
    if f.tag == DYNAMIC then DynamicOf(inner)
    else if f.tag == ARRAY then ItemsOf(inner)
    else if f.tag == STRUCT then
      RecordOf(if f.structure.fields == [] then StructOf(inner) else StructBy(depth, f.structure))
    else if f.tag == ARRAY_STRUCT then
      if f.structure.fields != [] then RecordsBy(f.structure, StructBy(depth, f.structure))
      else if depth == 0 then Bottom(4)
      else SelfDescribed(SchemaCodec(depth), (s: Schema) => StructBy(depth - 1, s), StructOf(inner))
    else FlatCodec(f.tag)
  }

  /** Structs laid out by a schema. */
  function StructBy(depth: nat, s: Schema): Codec<Fields>
    decreases depth, s
  {
    ByFields(s, seq(|s.fields|, i requires 0 <= i < |s.fields| => Payload(depth, s.fields[i].1)),
             if depth == 0 then Bottom(1) else ValueCodec(depth - 1))
  }

  // ---- every part is faithful ---------------------------------------------------------------

  lemma DynamicFaithful(inner: Codec<Value>)
    requires Faithful(inner)
    ensures Faithful(DynamicOf(inner)) && DynamicOf(inner).least == inner.least
  {
    hide Faithful;
    MappedFaithful(inner, (v: Value) => Dynamic(v), (v: Value) => if v.Dynamic? then v.inner else Values([]),
                   (v: Value) => v.Dynamic? && inner.fits(v.inner));
  }

  lemma ItemsFaithful(inner: Codec<Value>)
    requires Faithful(inner) && inner.least >= 1
    ensures Faithful(ItemsOf(inner)) && ItemsOf(inner).least == 4
  {
    hide Faithful, ArrayOf;
    ArrayFaithful(inner, 1);
    VariantFaithful(ArrayOf(inner, 1), (vs: seq<Value>) => Values(vs), (v: Value) => ItemsIn(v));
  }

  lemma RecordFaithful(fields: Codec<Fields>)
    requires Faithful(fields)
    ensures Faithful(RecordOf(fields)) && RecordOf(fields).least == fields.least
  {
    hide Faithful;
    VariantFaithful(fields, (fs: Fields) => Record(fs), (v: Value) => FieldsIn(v));
  }

  lemma RecordsFaithful(s: Schema, row: Codec<Fields>)
    requires Faithful(row) && row.least >= 1
    ensures Faithful(RecordsBy(s, row)) && RecordsBy(s, row).least == 4
  {
    hide Faithful, ArrayOf;
    ArrayFaithful(row, 1);
    MappedFaithful(ArrayOf(row, 1), (rows: seq<Fields>) => RecordsWith(s, rows), (v: Value) => RowsOf(v), (v: Value) => RowsFit(s, row, v));
  }

  lemma RowsReadBack(schemas: Codec<Schema>, rowOf: Schema -> Codec<Fields>, v: Value, rest: seq<Byte>)
    requires Faithful(schemas) && Faithful(rowOf(SchemaIn(v))) && rowOf(SchemaIn(v)).least >= 1
    requires DescribedFits(schemas, rowOf, v) && RowsOf(v) != []
    ensures
      var image := schemas.enc(v.schema) + EncAll(rowOf(v.schema), v.rows);
      DescribedRows(schemas, rowOf, |v.rows|, image + rest) == Some((v, |image|)) && |image| >= |v.rows|
  {
    hide Faithful, DecAll, EncAll, Product;
    var row := rowOf(v.schema);
    var x, y := schemas.enc(v.schema), EncAll(row, v.rows);
    FaithfulReadsBack(schemas, v.schema, y + rest);
    AllReadBack(row, v.rows, rest);
    LeastProduct(|v.rows|, 1, row.least);
    assert x + y + rest == x + (y + rest);
    assert (x + (y + rest))[|x|..] == y + rest;
  }

  lemma DescribedReadsBack(schemas: Codec<Schema>, rowOf: Schema -> Codec<Fields>, plain: Codec<Fields>, v: Value, rest: seq<Byte>)
    requires Faithful(schemas) && Faithful(rowOf(SchemaIn(v))) && (SchemaIn(v).fields != [] ==> rowOf(SchemaIn(v)).least >= 1)
    requires DescribedFits(schemas, rowOf, v)
    ensures
      var image := DescribedEnc(schemas, rowOf, plain, v);
      DescribedDec(schemas, rowOf, image + rest) == Some((v, |image|))
  {
    hide Faithful, DecAll, EncAll, LengthDec, LittleEndian, DescribedRows;
    var body := DescribedEnc(schemas, rowOf, plain, v)[4..];
    assert DescribedEnc(schemas, rowOf, plain, v) == LittleEndian(|RowsOf(v)|, 4) + body;
    assert LittleEndian(|RowsOf(v)|, 4) + body + rest == LittleEndian(|RowsOf(v)|, 4) + (body + rest);
    if RowsOf(v) == [] {
      NoItems(plain);
      LengthReadsBack(0, 1, body + rest);
    } else {
      RowsReadBack(schemas, rowOf, v, rest);
      LengthReadsBack(|v.rows|, 1, body + rest);
      assert (LittleEndian(|v.rows|, 4) + (body + rest))[4..] == body + rest;
    }
  }

  lemma NoItems<T>(c: Codec<T>)
    ensures EncAll(c, []) == []
  {
  }

  lemma RowsTake(schemas: Codec<Schema>, rowOf: Schema -> Codec<Fields>, n: nat, s: seq<Byte>, t: seq<Byte>)
    requires Faithful(schemas) && (forall schema :: Faithful(rowOf(schema))) && DescribedRows(schemas, rowOf, n, s).Some?
    ensures DescribedRows(schemas, rowOf, n, s + t) == DescribedRows(schemas, rowOf, n, s)
    ensures DescribedRows(schemas, rowOf, n, s).value.1 <= |s|
  {
    hide Faithful, DecAll, Product;
    FaithfulTakes(schemas, s, t);
    var (schema, k) := schemas.dec(s).value;
    assert (s + t)[k..] == s[k..] + t;
    AllExtend(rowOf(schema), n, s[k..], t);
    AllBounded(rowOf(schema), n, s[k..]);
  }

  lemma DescribedTakes(schemas: Codec<Schema>, rowOf: Schema -> Codec<Fields>, s: seq<Byte>, t: seq<Byte>)
    requires Faithful(schemas) && (forall schema :: Faithful(rowOf(schema))) && DescribedDec(schemas, rowOf, s).Some?
    ensures DescribedDec(schemas, rowOf, s + t) == DescribedDec(schemas, rowOf, s) && 4 <= DescribedDec(schemas, rowOf, s).value.1 <= |s|
  {
    hide Faithful, DescribedRows, LittleEndian;
    LengthExtends(s, t, 1);
    assert (s + t)[4..] == s[4..] + t;
    var n := LengthDec(s, 1).value.0;
    if n != 0 { RowsTake(schemas, rowOf, n, s[4..], t); }
  }

  lemma DescribedFaithful(schemas: Codec<Schema>, rowOf: Schema -> Codec<Fields>, plain: Codec<Fields>)
    requires Faithful(schemas) && forall s :: Faithful(rowOf(s)) && (s.fields != [] ==> rowOf(s).least >= 1)
    ensures Faithful(SelfDescribed(schemas, rowOf, plain))
  {
    hide DescribedEnc, DescribedDec, DescribedFits;
    var c := SelfDescribed(schemas, rowOf, plain);
    forall v: Value, rest: seq<Byte> | c.fits(v) ensures c.dec(c.enc(v) + rest) == Some((v, |c.enc(v)|)) {
      DescribedReadsBack(schemas, rowOf, plain, v, rest);
    }
    forall s: seq<Byte>, t: seq<Byte> | c.dec(s).Some? ensures c.dec(s + t) == c.dec(s) {
      DescribedTakes(schemas, rowOf, s, t);
    }
    forall s: seq<Byte> | c.dec(s).Some? ensures c.least <= c.dec(s).value.1 <= |s| {
      DescribedTakes(schemas, rowOf, s, []);
    }
  }

  lemma LenientFaithful(tag: Byte, core: Codec<Value>)
    requires Faithful(core)
    ensures Faithful(Lenient(tag, core))
  {
    var c := Lenient(tag, core);
    forall v: Value, rest: seq<Byte> | c.fits(v) ensures c.dec(c.enc(v) + rest) == Some((v, |c.enc(v)|)) {
      FaithfulReadsBack(core, v, rest);
    }
  }

  // ---- the recursion is faithful ------------------------------------------------------------

  function Inner(depth: nat): Codec<Value> {
    if depth == 0 then Bottom(1) else ValueCodec(depth - 1)
  }

  function RowCodecs(depth: nat, s: Schema): seq<Codec<Value>> {
    seq(|s.fields|, i requires 0 <= i < |s.fields| => Payload(depth, s.fields[i].1))
  }

  lemma InnerFaithful(depth: nat)
    requires depth > 0 ==> Faithful(ValueCodec(depth - 1))
    ensures Faithful(Inner(depth)) && Inner(depth).least == 1
  {
    hide Faithful, Payload;
    BottomFaithful<Value>(1);
  }

  lemma {:induction false} ValueFaithful(depth: nat)
    ensures Faithful(ValueCodec(depth)) && ValueCodec(depth).least == 1
    decreases depth
  {
    hide Faithful, Payload;
    forall tag: Byte ensures Faithful(Payload(depth, Untyped(tag))) {
      PayloadFaithful(depth, Untyped(tag));
    }
    TaggedFaithful((v: Value) => TagOf(v), (tag: Byte) => Payload(depth, Untyped(tag)));
  }

  lemma {:induction false} PayloadFaithful(depth: nat, f: FieldType)
    ensures Faithful(Payload(depth, f)) && Payload(depth, f).least >= 1
    decreases depth, f
  {
    hide Faithful, Core;
    CoreFaithful(depth, f);
    LenientFaithful(f.tag, Core(depth, f));
  }

  lemma {:induction false} CoreFaithful(depth: nat, f: FieldType)
    ensures Faithful(Core(depth, f)) && Core(depth, f).least >= 1
    decreases depth, f, 1
  {
    hide Faithful, ValueCodec, StructBy, StructOf, DynamicOf, ItemsOf, RecordOf, RecordsBy, SelfDescribed, FlatCodec, SchemaCodec;
    if depth > 0 { ValueFaithful(depth - 1); }
    InnerFaithful(depth);
    var inner := Inner(depth);
    if f.tag == DYNAMIC {
      DynamicFaithful(inner);
    } else if f.tag == ARRAY {
      ItemsFaithful(inner);
    } else if f.tag == STRUCT {
      StructFaithful(inner);
      if f.structure.fields == [] {
        RecordFaithful(StructOf(inner));
      } else {
        StructByFaithful(depth, f.structure);
        RecordFaithful(StructBy(depth, f.structure));
      }
    } else if f.tag == ARRAY_STRUCT {
      if f.structure.fields != [] {
        StructByFaithful(depth, f.structure);
        RecordsFaithful(f.structure, StructBy(depth, f.structure));
      } else {
        DescribedCore(depth, f);
      }
    } else {
      FlatFaithful(f.tag);
    }
  }

  lemma {:induction false} DescribedCore(depth: nat, f: FieldType)
    requires f.tag == ARRAY_STRUCT && f.structure.fields == []
    ensures Faithful(Core(depth, f)) && Core(depth, f).least == 4
    decreases depth, f, 0
  {
    hide Faithful, ValueCodec, ByFields, StructOf, SchemaCodec;
    if depth == 0 {
      BottomFaithful<Value>(4);
    } else {
      forall s: Schema ensures Faithful(StructBy(depth - 1, s)) && (s.fields != [] ==> StructBy(depth - 1, s).least >= 1) {
        StructByFaithful(depth - 1, s);
      }
      SchemaFaithful(depth);
      var rowOf := (s: Schema) => StructBy(depth - 1, s);
      assert forall s: Schema :: rowOf(s) == StructBy(depth - 1, s);
      DescribedFaithful(SchemaCodec(depth), rowOf, StructOf(ValueCodec(depth - 1)));
    }
  }

  lemma {:induction false} StructByFaithful(depth: nat, s: Schema)
    ensures Faithful(StructBy(depth, s)) && (s.fields != [] ==> StructBy(depth, s).least >= 1)
    decreases depth, s
  {
    hide Faithful, Payload, ByFields;
    if depth > 0 { ValueFaithful(depth - 1); }
    InnerFaithful(depth);
    forall i | 0 <= i < |s.fields| ensures Faithful(RowCodecs(depth, s)[i]) && RowCodecs(depth, s)[i].least >= 1 {
      PayloadFaithful(depth, s.fields[i].1);
    }
    ByFieldsFaithful(s, RowCodecs(depth, s), Inner(depth));
    StructByIs(depth, s);
  }

  lemma StructByIs(depth: nat, s: Schema)
    ensures StructBy(depth, s) == ByFields(s, RowCodecs(depth, s), Inner(depth))
  {
    hide ByFields, Payload, ValueCodec;
  }

  // ---- the bound on depth does not show -----------------------------------------------------

  lemma DynamicGrows(inner: Codec<Value>, wider: Codec<Value>, n: int)
    requires Grows(inner, wider, n)
    ensures Grows(DynamicOf(inner), DynamicOf(wider), n)
  {
  }

  lemma RecordsGrow(s: Schema, row: Codec<Fields>, wider: Codec<Fields>, n: int)
    requires Grows(row, wider, n)
    ensures Grows(RecordsBy(s, row), RecordsBy(s, wider), n)
  {
    hide ArrayOf;
    ArrayGrows(row, wider, 1, n);
    forall v: Value | RowsFit(s, row, v) ensures ArrayOf(row, 1).fits(RowsOf(v)) && RowsFit(s, wider, v) {
      assert RowsOf(v) == v.rows;
    }
    hide RowsFit, Grows;
    MappedGrows(ArrayOf(row, 1), ArrayOf(wider, 1), (rows: seq<Fields>) => RecordsWith(s, rows), (v: Value) => RowsOf(v),
                (v: Value) => RowsFit(s, row, v), (v: Value) => RowsFit(s, wider, v), n);
  }

  lemma DescribedGrows(schemas: Codec<Schema>, wideSchemas: Codec<Schema>, rowOf: Schema -> Codec<Fields>, wideRow: Schema -> Codec<Fields>,
                       plain: Codec<Fields>, widePlain: Codec<Fields>, n: int)
    requires Grows(schemas, wideSchemas, n - 4) && forall s :: Grows(rowOf(s), wideRow(s), n - 4)
    ensures Grows(SelfDescribed(schemas, rowOf, plain), SelfDescribed(wideSchemas, wideRow, widePlain), n)
  {
    hide Grows, DecAll, EncAll, LengthDec, LittleEndian, DescribedDec, DescribedEnc, DescribedFits;
    forall v: Value | DescribedFits(schemas, rowOf, v)
      ensures DescribedFits(wideSchemas, wideRow, v) && DescribedEnc(wideSchemas, wideRow, widePlain, v) == DescribedEnc(schemas, rowOf, plain, v)
    {
      DescribedEncGrows(schemas, wideSchemas, rowOf, wideRow, plain, widePlain, n, v);
    }
    forall s: seq<Byte> | |s| <= n ensures DescribedDec(wideSchemas, wideRow, s) == DescribedDec(schemas, rowOf, s) {
      DescribedDecGrows(schemas, wideSchemas, rowOf, wideRow, n, s);
    }
    GrowsFrom(SelfDescribed(schemas, rowOf, plain), SelfDescribed(wideSchemas, wideRow, widePlain), n);
  }

  lemma GrowsFrom<T(!new)>(c: Codec<T>, d: Codec<T>, n: int)
    requires forall v :: c.fits(v) ==> d.fits(v) && d.enc(v) == c.enc(v)
    requires forall s :: |s| <= n ==> d.dec(s) == c.dec(s)
    ensures Grows(c, d, n)
  {
  }

  lemma DescribedEncGrows(schemas: Codec<Schema>, wideSchemas: Codec<Schema>, rowOf: Schema -> Codec<Fields>, wideRow: Schema -> Codec<Fields>,
                          plain: Codec<Fields>, widePlain: Codec<Fields>, n: int, v: Value)
    requires Grows(schemas, wideSchemas, n - 4) && forall s :: Grows(rowOf(s), wideRow(s), n - 4)
    requires DescribedFits(schemas, rowOf, v)
    ensures DescribedFits(wideSchemas, wideRow, v) && DescribedEnc(wideSchemas, wideRow, widePlain, v) == DescribedEnc(schemas, rowOf, plain, v)
  {
    hide EncAll, LittleEndian;
    var s := SchemaIn(v);
    assert Grows(rowOf(s), wideRow(s), n - 4);
    if v == Records(EMPTY_SCHEMA, []) {
      NoItems(plain);
      NoItems(widePlain);
    } else {
      EncAllGrows(rowOf(s), wideRow(s), n - 4, v.rows);
    }
  }

  lemma DescribedDecGrows(schemas: Codec<Schema>, wideSchemas: Codec<Schema>, rowOf: Schema -> Codec<Fields>, wideRow: Schema -> Codec<Fields>,
                          n: int, s: seq<Byte>)
    requires Grows(schemas, wideSchemas, n - 4) && forall s :: Grows(rowOf(s), wideRow(s), n - 4)
    requires |s| <= n
    ensures DescribedDec(wideSchemas, wideRow, s) == DescribedDec(schemas, rowOf, s)
  {
    hide DecAll, LengthDec;
    if |s| >= 4 && LengthDec(s, 1).Some? {
      var count, body := LengthDec(s, 1).value.0, s[4..];
      assert wideSchemas.dec(body) == schemas.dec(body);
      if schemas.dec(body).Some? && schemas.dec(body).value.1 <= |body| {
        var (schema, k) := schemas.dec(body).value;
        assert Grows(rowOf(schema), wideRow(schema), n - 4);
        DecAllGrows(rowOf(schema), wideRow(schema), n - 4, count, body[k..]);
      }
    }
  }

  lemma LenientGrows(tag: Byte, core: Codec<Value>, wider: Codec<Value>, n: int)
    requires Grows(core, wider, n)
    ensures Grows(Lenient(tag, core), Lenient(tag, wider), n)
  {
  }

  lemma InnerGrows(depth: nat, wider: nat)
    requires depth <= wider && (depth > 0 ==> Grows(ValueCodec(depth - 1), ValueCodec(wider - 1), depth - 1))
    ensures Grows(Inner(depth), Inner(wider), depth - 1)
  {
    hide Grows, ValueCodec;
    BottomGrows(1, Inner(wider));
  }

  /** The bound on depth does not show: with a larger one the same values are written the same way, and
      inputs of no more bytes than the smaller one are read the same way. */
  lemma {:induction false} ValueGrows(depth: nat, wider: nat)
    requires depth <= wider
    ensures Grows(ValueCodec(depth), ValueCodec(wider), depth)
    decreases depth
  {
    hide Grows, Payload;
    forall tag: Byte ensures Grows(Payload(depth, Untyped(tag)), Payload(wider, Untyped(tag)), depth - 1) {
      PayloadGrows(depth, wider, Untyped(tag));
    }
    TaggedGrows((v: Value) => TagOf(v), (tag: Byte) => Payload(depth, Untyped(tag)), (tag: Byte) => Payload(wider, Untyped(tag)), depth);
  }

  lemma {:induction false} PayloadGrows(depth: nat, wider: nat, f: FieldType)
    requires depth <= wider
    ensures Grows(Payload(depth, f), Payload(wider, f), depth - 1)
    decreases depth, f
  {
    hide Grows, Core;
    CoreGrows(depth, wider, f);
    LenientGrows(f.tag, Core(depth, f), Core(wider, f), depth - 1);
  }

  lemma {:induction false} CoreGrows(depth: nat, wider: nat, f: FieldType)
    requires depth <= wider
    ensures Grows(Core(depth, f), Core(wider, f), depth - 1)
    decreases depth, f, 1
  {
    hide Grows, ValueCodec, StructBy, StructOf, DynamicOf, RecordsBy, SelfDescribed, FlatCodec, SchemaCodec, ArrayOf;
    if depth > 0 { ValueGrows(depth - 1, wider - 1); }
    InnerGrows(depth, wider);
    var inner, more, n := Inner(depth), Inner(wider), depth - 1;
    if f.tag == DYNAMIC {
      DynamicGrows(inner, more, n);
    } else if f.tag == ARRAY {
      ArrayGrows(inner, more, 1, n);
      VariantGrows(ArrayOf(inner, 1), ArrayOf(more, 1), (vs: seq<Value>) => Values(vs), (v: Value) => ItemsIn(v), n);
    } else if f.tag == STRUCT {
      StructGrows(inner, more, n);
      if f.structure.fields == [] {
        VariantGrows(StructOf(inner), StructOf(more), (fs: Fields) => Record(fs), (v: Value) => FieldsIn(v), n);
      } else {
        StructByGrows(depth, wider, f.structure);
        VariantGrows(StructBy(depth, f.structure), StructBy(wider, f.structure), (fs: Fields) => Record(fs), (v: Value) => FieldsIn(v), n);
      }
    } else if f.tag == ARRAY_STRUCT {
      if f.structure.fields != [] {
        StructByGrows(depth, wider, f.structure);
        RecordsGrow(f.structure, StructBy(depth, f.structure), StructBy(wider, f.structure), n);
      } else {
        DescribedCoreGrows(depth, wider, f);
      }
    } else {
      SameGrows(FlatCodec(f.tag), n);
    }
  }

  lemma {:induction false} DescribedCoreGrows(depth: nat, wider: nat, f: FieldType)
    requires depth <= wider && f.tag == ARRAY_STRUCT && f.structure.fields == []
    ensures Grows(Core(depth, f), Core(wider, f), depth - 1)
    decreases depth, f, 0
  {
    hide Grows, ValueCodec, ByFields, StructOf, SchemaCodec, SelfDescribed;
    if depth == 0 {
      BottomGrows(4, Core(wider, f));
    } else {
      var rowOf, wideRow := (s: Schema) => StructBy(depth - 1, s), (s: Schema) => StructBy(wider - 1, s);
      forall s: Schema ensures Grows(rowOf(s), wideRow(s), depth - 5) {
        StructByGrows(depth - 1, wider - 1, s);
        assert rowOf(s) == StructBy(depth - 1, s) && wideRow(s) == StructBy(wider - 1, s);
        GrowsLess(rowOf(s), wideRow(s), depth - 2, depth - 5);
      }
      SchemaGrows(depth, wider);
      GrowsLess(SchemaCodec(depth), SchemaCodec(wider), depth, depth - 5);
      DescribedGrows(SchemaCodec(depth), SchemaCodec(wider), rowOf, wideRow, StructOf(ValueCodec(depth - 1)), StructOf(ValueCodec(wider - 1)), depth - 1);
    }
  }

  lemma {:induction false} StructByGrows(depth: nat, wider: nat, s: Schema)
    requires depth <= wider
    ensures Grows(StructBy(depth, s), StructBy(wider, s), depth - 1)
    decreases depth, s
  {
    hide Grows, Payload, ByFields;
    if depth > 0 { ValueGrows(depth - 1, wider - 1); }
    InnerGrows(depth, wider);
    forall i | 0 <= i < |s.fields| ensures Grows(RowCodecs(depth, s)[i], RowCodecs(wider, s)[i], depth - 1) {
      PayloadGrows(depth, wider, s.fields[i].1);
    }
    ByFieldsGrows(s, RowCodecs(depth, s), RowCodecs(wider, s), Inner(depth), Inner(wider), depth - 1);
    StructByIs(depth, s);
    StructByIs(wider, s);
  }

  // ---- values and structs, whatever their nesting -------------------------------------------

  /** The reader of a value: no input nests deeper than its length. */
  function ReadValue(s: seq<Byte>): Answer<Value> {
    ValueCodec(|s|).dec(s)
  }

  /** The reader of a struct laid out by a schema. */
  function ReadStruct(schema: Schema, s: seq<Byte>): Answer<Fields> {
    StructBy(|s| + 1, schema).dec(s)
  }

  /** A larger bound on depth reads the same. */
  lemma ReadersAreUnbounded(s: seq<Byte>, schema: Schema, depth: nat)
    requires depth > |s|
    ensures ValueCodec(depth).dec(s) == ReadValue(s) && StructBy(depth, schema).dec(s) == ReadStruct(schema, s)
  {
    ValueGrows(|s|, depth);
    StructByGrows(|s| + 1, depth, schema);
  }
}
