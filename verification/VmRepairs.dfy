/** What becomes of any value that is written: missing and mistyped fields come back as zeroes and
    forbidden extra fields are gone, at every depth. The repaired value can be written, and is written
    the same way. */
module VmRepairs {
  import opened Wrappers
  import opened Words64
  import opened Codecs
  import opened WireFormat
  import opened FaithfulCodecs
  import opened VmNames
  import opened VmValues
  import opened VmFlat
  import opened VmSchemas
  import opened VmStructs
  import opened VmCodec
  import opened VmLaws

  // ---- the repair ---------------------------------------------------------------------------

  /** What comes back of a value written at a type; depth bounds the nesting only. */
  function Repaired(v: Value, f: FieldType, depth: nat): Value
    decreases depth, f
  {
    match Standing(v, f.tag)
    case Nothing => Dynamic(Values([]))
    case Dynamic(x) => if depth == 0 then Dynamic(x) else Dynamic(Repaired(x, Untyped(TagOf(x)), depth - 1))
    case Values(xs) =>
      if depth == 0 then Values(xs) else Values(seq(|xs|, i requires 0 <= i < |xs| => Repaired(xs[i], Untyped(TagOf(xs[i])), depth - 1)))
    case Record(fs) =>
      Record(if f.structure.fields != [] then RepairedBy(fs, f.structure, depth) else if depth == 0 then fs else RepairedList(Sort(fs), depth - 1))
    case Records(s, rows) =>
      if f.structure.fields != [] then
        RecordsWith(f.structure, seq(|rows|, i requires 0 <= i < |rows| => RepairedBy(rows[i], f.structure, depth)))
      else if depth == 0 then Records(s, rows)
      else Records(s, seq(|rows|, i requires 0 <= i < |rows| => RepairedBy(rows[i], s, depth - 1)))
    case x => x
  }

  /** Named values, each at its own type. */
  function RepairedList(fs: Fields, depth: nat): (r: Fields)
    ensures |r| == |fs| && forall i :: 0 <= i < |fs| ==> r[i].0 == fs[i].0
    decreases depth
  {
    seq(|fs|, i requires 0 <= i < |fs| => (fs[i].0, Repaired(fs[i].1, Untyped(TagOf(fs[i].1)), depth)))
  }

  /** The schema's fields at their types, zeroes where they are missing or mistyped. */
  function RepairedValues(fs: Fields, s: Schema, depth: nat): (r: seq<Value>)
    ensures |r| == |s.fields|
    decreases depth, s, 0
  {
    seq(|s.fields|, i requires 0 <= i < |s.fields| => Repaired(FieldValues(s, fs)[i], s.fields[i].1, depth))
  }

  /** The extra fields where the schema allows any. */
  function RepairedExtras(fs: Fields, s: Schema, depth: nat): Fields
    decreases depth, s, 0
  {
    if !AllowsExtras(s) then [] else if depth == 0 then Extras(s, fs) else RepairedList(Extras(s, fs), depth - 1)
  }

  /** What comes back of a struct written under a schema. */
  function RepairedBy(fs: Fields, s: Schema, depth: nat): Fields
    decreases depth, s, 1
  {
    Assemble(s, RepairedValues(fs, s, depth), RepairedExtras(fs, s, depth))
  }

  // ---- what a writer may be given -----------------------------------------------------------

  /** Names that sort strictly. */
  predicate Sortable(fs: Fields) {
    Sorted(fs) || (Clean(fs) && Distinct(fs))
  }

  /** A value whose counts, names and schemas are usable, whether or not its fields are there and of
      their types. */
  ghost predicate Writable(v: Value, f: FieldType, depth: nat)
    decreases depth, f
  {
    match Standing(v, f.tag)
    case Nothing => f.tag == DYNAMIC && depth > 0
    case Dynamic(x) => depth > 0 && Writable(x, Untyped(TagOf(x)), depth - 1)
    case Values(xs) => Short(xs) && forall i :: 0 <= i < |xs| ==> depth > 0 && Writable(xs[i], Untyped(TagOf(xs[i])), depth - 1)
    case Record(fs) =>
      if f.structure.fields != [] then WritableBy(fs, f.structure, depth)
      else Sortable(fs) && Short(fs) && (fs == [] || (depth > 0 && WritableList(fs, depth - 1)))
    case Records(s, rows) =>
      Short(rows) &&
      if f.structure.fields != [] then forall i :: 0 <= i < |rows| ==> WritableBy(rows[i], f.structure, depth)
      else
        && depth > 0 && (if rows == [] then s == EMPTY_SCHEMA else s.fields != [] && SchemaFits(s, depth))
        && forall i :: 0 <= i < |rows| ==> WritableBy(rows[i], s, depth - 1)
    case x => TagOf(x) == f.tag && FlatFits(x)
  }

  ghost predicate WritableList(fs: Fields, depth: nat)
    decreases depth
  {
    forall i :: 0 <= i < |fs| ==> Writable(fs[i].1, Untyped(TagOf(fs[i].1)), depth)
  }

  ghost predicate WritableBy(fs: Fields, s: Schema, depth: nat)
    decreases depth, s
  {
    && s.fields != [] && GoodSchema(s) && Sorted(fs) && Clean(fs)
    && (forall i :: 0 <= i < |s.fields| ==> Writable(FieldValues(s, fs)[i], s.fields[i].1, depth))
    && (AllowsExtras(s) ==> Short(Extras(s, fs)) && (Extras(s, fs) == [] || (depth > 0 && WritableList(Extras(s, fs), depth - 1))))
  }

  // ---- putting together and taking apart ----------------------------------------------------

  /** Fields that no schema field is named like, in order. */
  predicate Foreign(s: Schema, extras: Fields) {
    Sorted(extras) && Clean(extras) && forall i :: 0 <= i < |extras| ==> Find(s.fields, extras[i].0).None?
  }

  lemma {:induction false} ExtrasSorted(s: Schema, fs: Fields)
    requires Sorted(fs) && Clean(fs)
    ensures Foreign(s, Extras(s, fs))
  {
    hide NameLess, Find, ZeroFree;
    if fs != [] {
      var n := |fs| - 1;
      var k := Extras(s, fs[..n]);
      ExtrasSorted(s, fs[..n]);
      ExtraFields(s, fs[..n]);
      forall i | 0 <= i < |k| ensures NameLess(k[i].0, fs[n].0) {
        assert k[i] in k && k[i] in fs[..n];
      }
    }
  }

  lemma AllTogether(s: Schema, vs: seq<Value>, extras: Fields)
    requires GoodSchema(s) && |vs| == |s.fields| && Foreign(s, extras)
    ensures Distinct(Zip(s.fields, vs) + extras) && Clean(Zip(s.fields, vs) + extras)
  {
    hide Find, Sorted, ZeroFree;
    SortedIsDistinct(extras);
    var own := Zip(s.fields, vs);
    forall i, j | 0 <= i < |own| && 0 <= j < |extras| ensures own[i].0 != extras[j].0 {
      FindIs(s.fields, extras[j].0);
      assert s.fields[i].0 == own[i].0;
    }
  }

  /** A struct put together from values and extra fields is sorted and holds exactly those. */
  lemma PutTogether(s: Schema, vs: seq<Value>, extras: Fields)
    requires GoodSchema(s) && |vs| == |s.fields| && Foreign(s, extras) && (!AllowsExtras(s) ==> extras == [])
    ensures
      var fs := Assemble(s, vs, extras);
      Sorted(fs) && Clean(fs) && SameFields(fs, Zip(s.fields, vs) + extras)
  {
    hide Find, Sort, Sorted, Clean, Distinct, Ordered, Zip;
    AllTogether(s, vs, extras);
    var own := Zip(s.fields, vs);
    if !AllowsExtras(s) { assert own + extras == own; }
    if AllowsExtras(s) || !ClaimsSorted(s) {
      SortSorted(own + extras);
    } else {
      ZipOrdered(s.fields, vs);
      OrderedIsSorted(own);
    }
  }

  /** Taken apart again it yields the values and the extra fields it was put together from. */
  lemma TakenApart(s: Schema, vs: seq<Value>, extras: Fields)
    requires GoodSchema(s) && |vs| == |s.fields| && Foreign(s, extras) && (!AllowsExtras(s) ==> extras == [])
    ensures
      var fs := Assemble(s, vs, extras);
      Holds(s, fs) && FieldValues(s, fs) == vs && Extras(s, fs) == extras
  {
    hide Assemble, Find, Sorted, Clean, Distinct, GoodSchema, Extras;
    var fs := Assemble(s, vs, extras);
    PutTogether(s, vs, extras);
    SortedIsDistinct(fs);
    forall i | 0 <= i < |s.fields| ensures Find(fs, s.fields[i].0) == Some(vs[i]) {
      var x := (s.fields[i].0, vs[i]);
      assert Zip(s.fields, vs)[i] == x && x in Zip(s.fields, vs) + extras;
      FindMember(fs, x);
    }
    OthersAreExtras(s, vs, extras, fs);
  }

  lemma OthersAreExtras(s: Schema, vs: seq<Value>, extras: Fields, fs: Fields)
    requires |vs| == |s.fields| && Foreign(s, extras) && Sorted(fs) && Clean(fs) && SameFields(fs, Zip(s.fields, vs) + extras)
    ensures Extras(s, fs) == extras
    ensures extras == [] ==> forall j :: 0 <= j < |fs| ==> Find(s.fields, fs[j].0).Some?
  {
    hide Find, Sorted, Clean, Extras;
    var own := Zip(s.fields, vs);
    ExtrasSorted(s, fs);
    ExtraFields(s, fs);
    forall x | x in own ensures Find(s.fields, x.0).Some? {
      var i: nat :| i < |own| && own[i] == x;
      assert s.fields[i].0 == x.0;
      FindIs(s.fields, x.0);
    }
    forall x | x in extras ensures Find(s.fields, x.0).None? {
      var i: nat :| i < |extras| && extras[i] == x;
    }
    SortedUnique(Extras(s, fs), extras);
    if extras == [] { NoneLeftOver(s, fs); }
  }

  lemma SameNames(s: Schema, extras: Fields, others: Fields)
    requires Foreign(s, extras) && |others| == |extras| && forall i :: 0 <= i < |extras| ==> others[i].0 == extras[i].0
    ensures Foreign(s, others)
  {
    hide NameLess, Find, ZeroFree;
  }

  lemma RepairedExtrasAre(fs: Fields, s: Schema, depth: nat)
    requires Sorted(fs) && Clean(fs)
    ensures |RepairedExtras(fs, s, depth)| == (if AllowsExtras(s) then |Extras(s, fs)| else 0) && Foreign(s, RepairedExtras(fs, s, depth))
  {
    hide Repaired, Sorted, Clean, Find;
    ExtrasSorted(s, fs);
    if AllowsExtras(s) {
      SameNames(s, Extras(s, fs), RepairedExtras(fs, s, depth));
    } else {
      NoneForeign(s);
    }
  }

  lemma NoneForeign(s: Schema)
    ensures Foreign(s, [])
  {
  }

  /** Taking a repaired struct apart. */
  lemma RepairedApart(fs: Fields, s: Schema, depth: nat)
    requires WritableBy(fs, s, depth)
    ensures
      var r := RepairedBy(fs, s, depth);
      Holds(s, r) && FieldValues(s, r) == RepairedValues(fs, s, depth) && Extras(s, r) == RepairedExtras(fs, s, depth)
  {
    hide RepairedValues, RepairedExtras, Assemble, GoodSchema, Sorted, Clean, Holds, Foreign, Writable, WritableList;
    RepairedExtrasAre(fs, s, depth);
    NoExtrasRepaired(fs, s, depth);
    TakenApart(s, RepairedValues(fs, s, depth), RepairedExtras(fs, s, depth));
  }

  lemma NoExtrasRepaired(fs: Fields, s: Schema, depth: nat)
    ensures !AllowsExtras(s) ==> RepairedExtras(fs, s, depth) == []
  {
  }

  // ---- the repair can be written ------------------------------------------------------------

  /** What comes back can be written, and has the type asked for. */
  lemma {:induction false} RepairIsStorable(v: Value, f: FieldType, depth: nat)
    requires Writable(v, f, depth)
    ensures Storable(Repaired(v, f, depth), f, depth)
    decreases depth, f
  {
    hide Writable, Storable, Repaired;
    match Standing(v, f.tag) {
      case Dynamic(x) => PointedStorable(v, f, depth, x);
      case Values(xs) => ValuesStorable(v, f, depth, xs);
      case Record(fs) => RecordStorable(v, f, depth, fs);
      case Records(s, rows) => RowsStorable(v, f, depth, s, rows);
      case _ => PlainStorable(v, f, depth);
    }
  }

  lemma PlainStorable(v: Value, f: FieldType, depth: nat)
    requires Writable(v, f, depth)
    requires var x := Standing(v, f.tag); !x.Dynamic? && !x.Values? && !x.Record? && !x.Records?
    ensures Storable(Repaired(v, f, depth), f, depth)
  {
    hide FlatFits, Short;
    if Standing(v, f.tag).Nothing? { NullStorable(depth); }
  }

  lemma {:induction false} PointedStorable(v: Value, f: FieldType, depth: nat, x: Value)
    requires Writable(v, f, depth) && Standing(v, f.tag) == Dynamic(x)
    ensures Storable(Repaired(v, f, depth), f, depth)
    decreases depth, f, 0
  {
    hide Short, FlatFits;
    var r := Repaired(x, Untyped(TagOf(x)), depth - 1);
    RepairIsStorable(x, Untyped(TagOf(x)), depth - 1);
    StorableTag(r, Untyped(TagOf(x)), depth - 1);
    PointerStorable(r, f, depth);
    assert TagOf(Dynamic(x)) == f.tag by { ZeroTag(v, f.tag); }
  }

  lemma PointerStorable(r: Value, f: FieldType, depth: nat)
    requires depth > 0 && Storable(r, Untyped(TagOf(r)), depth - 1)
    ensures Storable(Dynamic(r), FieldType(DYNAMIC, f.structure), depth)
  {
  }

  lemma ZeroTag(v: Value, tag: Byte)
    ensures Standing(v, tag).Dynamic? || Standing(v, tag).Values? || Standing(v, tag).Record? || Standing(v, tag).Records? ==>
      TagOf(Standing(v, tag)) == tag
  {
  }

  lemma {:induction false} RecordStorable(v: Value, f: FieldType, depth: nat, fs: Fields)
    requires Writable(v, f, depth) && Standing(v, f.tag) == Record(fs)
    ensures Storable(Repaired(v, f, depth), f, depth)
    decreases depth, f, 1
  {
    hide FlatFits, WritableBy, StorableBy, RepairedBy, Short, Sortable, WritableList, StorableFields, RepairedList, Sorted;
    if f.structure.fields != [] {
      ByIsStorable(fs, f.structure, depth);
    } else {
      UntypedStorable(fs, f, depth);
    }
  }

  lemma NullStorable(depth: nat)
    requires depth > 0
    ensures Storable(Dynamic(Values([])), Untyped(DYNAMIC), depth)
  {
    assert Storable(Values([]), Untyped(ARRAY), depth - 1);
  }

  lemma {:induction false} ValuesStorable(v: Value, f: FieldType, depth: nat, xs: seq<Value>)
    requires Writable(v, f, depth) && Standing(v, f.tag) == Values(xs)
    ensures Storable(Repaired(v, f, depth), f, depth)
    decreases depth, f, 0
  {
    if xs != [] {
      var first := xs[0];
      assert depth > 0;
      var r := Repaired(v, f, depth).items;
      forall i | 0 <= i < |r| ensures Storable(r[i], Untyped(TagOf(r[i])), depth - 1) {
        RepairIsStorable(xs[i], Untyped(TagOf(xs[i])), depth - 1);
        StorableTag(r[i], Untyped(TagOf(xs[i])), depth - 1);
      }
    }
  }

  lemma {:induction false} ListStorable(fs: Fields, depth: nat)
    requires WritableList(fs, depth)
    ensures StorableFields(RepairedList(fs, depth), depth)
    decreases depth
  {
    hide Writable, Storable, Repaired;
    var r := RepairedList(fs, depth);
    forall i | 0 <= i < |r| ensures Storable(r[i].1, Untyped(TagOf(r[i].1)), depth) {
      RepairIsStorable(fs[i].1, Untyped(TagOf(fs[i].1)), depth);
      StorableTag(r[i].1, Untyped(TagOf(fs[i].1)), depth);
    }
  }

  lemma StorableTag(v: Value, f: FieldType, depth: nat)
    requires Storable(v, f, depth)
    ensures TagOf(v) == f.tag
  {
  }

  lemma SameNamesSorted(fs: Fields, others: Fields)
    requires Sorted(fs) && |others| == |fs| && forall i :: 0 <= i < |fs| ==> others[i].0 == fs[i].0
    ensures Sorted(others)
  {
    hide NameLess;
  }

  lemma SortedList(fs: Fields, depth: nat)
    requires Sortable(fs)
    ensures |Sort(fs)| == |fs| && Sorted(Sort(fs)) && Sorted(RepairedList(Sort(fs), depth))
    ensures WritableList(fs, depth) ==> WritableList(Sort(fs), depth)
  {
    hide NameLess, Sort, Clean, Distinct, Sorted, Ordered, Writable, Repaired;
    if Sorted(fs) {
      SortedIsOrdered(fs);
      SortKeeps(fs);
    } else {
      SortSorted(fs);
    }
    SortFields(fs);
    SameNamesSorted(Sort(fs), RepairedList(Sort(fs), depth));
    SortOrdered(fs);
    if WritableList(fs, depth) {
      forall i | 0 <= i < |fs| ensures Writable(Sort(fs)[i].1, Untyped(TagOf(Sort(fs)[i].1)), depth) {
        assert Sort(fs)[i] in Sort(fs) && Sort(fs)[i] in fs;
      }
    }
  }

  lemma {:induction false} UntypedStorable(fs: Fields, f: FieldType, depth: nat)
    requires Sortable(fs) && Short(fs) && (fs == [] || (depth > 0 && WritableList(fs, depth - 1)))
    ensures
      var r := if depth == 0 then fs else RepairedList(Sort(fs), depth - 1);
      Sorted(r) && Short(r) && (r == [] || (depth > 0 && StorableFields(r, depth - 1)))
    decreases depth, f, 0
  {
    hide WritableList, StorableFields, Sort, Sorted, Sortable, RepairedList;
    if depth > 0 {
      SortedList(fs, depth - 1);
      if fs != [] { ListStorable(Sort(fs), depth - 1); }
    } else {
      NothingSorted();
    }
  }

  lemma NothingSorted()
    ensures Sorted<Value>([])
  {
  }

  lemma {:induction false} RowsStorable(v: Value, f: FieldType, depth: nat, s: Schema, rows: seq<Fields>)
    requires Writable(v, f, depth) && Standing(v, f.tag) == Records(s, rows)
    ensures Storable(Repaired(v, f, depth), f, depth)
    decreases depth, f, 0
  {
    hide SchemaFits, WritableBy, StorableBy, RepairedBy;
    if f.structure.fields != [] {
      forall i | 0 <= i < |rows| ensures StorableBy(RepairedBy(rows[i], f.structure, depth), f.structure, depth) {
        ByIsStorable(rows[i], f.structure, depth);
      }
    } else {
      forall i | 0 <= i < |rows| ensures StorableBy(RepairedBy(rows[i], s, depth - 1), s, depth - 1) {
        ByIsStorable(rows[i], s, depth - 1);
      }
    }
  }

  lemma {:induction false} ByIsStorable(fs: Fields, s: Schema, depth: nat)
    requires WritableBy(fs, s, depth)
    ensures StorableBy(RepairedBy(fs, s, depth), s, depth)
    decreases depth, s
  {
    hide RepairedBy, GoodSchema, Sorted, Clean, Holds, Writable, Storable, WritableList, StorableFields, RepairedList, Repaired;
    RepairedApart(fs, s, depth);
    forall i | 0 <= i < |s.fields| ensures Storable(RepairedValues(fs, s, depth)[i], s.fields[i].1, depth) {
      RepairIsStorable(FieldValues(s, fs)[i], s.fields[i].1, depth);
    }
    if AllowsExtras(s) && Extras(s, fs) != [] { ListStorable(Extras(s, fs), depth - 1); }
  }

  // ---- the repair is written the same way ---------------------------------------------------

  lemma {:induction false} SameAll<T>(c: Codec<T>, xs: seq<T>, ys: seq<T>)
    requires |xs| == |ys| && forall i :: 0 <= i < |xs| ==> c.enc(xs[i]) == c.enc(ys[i])
    ensures EncAll(c, xs) == EncAll(c, ys)
  {
    if xs != [] {
      var n := |xs| - 1;
      SameAll(c, xs[..n], ys[..n]);
    }
  }

  lemma PayloadWrites(depth: nat, f: FieldType, v: Value)
    ensures Payload(depth, f).enc(v) == Core(depth, f).enc(Standing(v, f.tag))
  {
    hide Core;
  }

  /** A value and what comes back of it are written the same way. */
  lemma {:induction false} WritesAlike(v: Value, f: FieldType, depth: nat)
    requires Writable(v, f, depth)
    ensures Payload(depth, f).enc(Repaired(v, f, depth)) == Payload(depth, f).enc(v)
    decreases depth, f, 2
  {
    hide Payload, Core, Storable;
    var r := Repaired(v, f, depth);
    RepairIsStorable(v, f, depth);
    StorableTag(r, f, depth);
    PayloadWrites(depth, f, v);
    PayloadWrites(depth, f, r);
    hide Writable, Repaired;
    match Standing(v, f.tag) {
      case Nothing => NullAlike(v, f, depth);
      case Dynamic(x) => PointedAlike(v, f, depth, x);
      case Values(xs) => ValuesAlike(v, f, depth, xs);
      case Record(fs) => RecordAlike(v, f, depth, fs);
      case Records(s, rows) => RowsAlike(v, f, depth, s, rows);
      case _ => FlatAlike(v, f, depth);
    }
  }

  lemma FlatAlike(v: Value, f: FieldType, depth: nat)
    requires var x := Standing(v, f.tag); !x.Nothing? && !x.Dynamic? && !x.Values? && !x.Record? && !x.Records?
    ensures Repaired(v, f, depth) == Standing(v, f.tag)
  {
  }

  lemma DynamicCore(depth: nat, f: FieldType)
    requires f.tag == DYNAMIC
    ensures Core(depth, f) == DynamicOf(Inner(depth))
  {
    hide ValueCodec, DynamicOf;
  }

  lemma NullAlike(v: Value, f: FieldType, depth: nat)
    requires Writable(v, f, depth) && Standing(v, f.tag).Nothing?
    ensures Core(depth, f).enc(Repaired(v, f, depth)) == Core(depth, f).enc(Standing(v, f.tag))
  {
    DynamicCore(depth, f);
    hide Core, Inner;
  }

  /** A value with its type byte. */
  lemma {:induction false} ValueAlike(x: Value, depth: nat)
    requires Writable(x, Untyped(TagOf(x)), depth)
    ensures ValueCodec(depth).enc(Repaired(x, Untyped(TagOf(x)), depth)) == ValueCodec(depth).enc(x)
    ensures TagOf(Repaired(x, Untyped(TagOf(x)), depth)) == TagOf(x)
    decreases depth, Untyped(TagOf(x)), 3
  {
    hide Writable, Repaired, Storable, Payload;
    WritesAlike(x, Untyped(TagOf(x)), depth);
    RepairIsStorable(x, Untyped(TagOf(x)), depth);
    StorableTag(Repaired(x, Untyped(TagOf(x)), depth), Untyped(TagOf(x)), depth);
  }

  lemma {:induction false} PointedAlike(v: Value, f: FieldType, depth: nat, x: Value)
    requires Writable(v, f, depth) && Standing(v, f.tag) == Dynamic(x)
    ensures Core(depth, f).enc(Repaired(v, f, depth)) == Core(depth, f).enc(Standing(v, f.tag))
    decreases depth, f, 0
  {
    hide ValueCodec, Core;
    ZeroTag(v, f.tag);
    DynamicCore(depth, f);
    ValueAlike(x, depth - 1);
  }

  lemma {:induction false} ValuesAlike(v: Value, f: FieldType, depth: nat, xs: seq<Value>)
    requires Writable(v, f, depth) && Standing(v, f.tag) == Values(xs)
    ensures Core(depth, f).enc(Repaired(v, f, depth)) == Core(depth, f).enc(Standing(v, f.tag))
    decreases depth, f, 0
  {
    hide ValueCodec, Core, ItemsOf;
    ZeroTag(v, f.tag);
    ItemsCore(depth, f);
    var r := Repaired(v, f, depth).items;
    if xs != [] {
      var first := xs[0];
      assert depth > 0;
      forall i | 0 <= i < |r| ensures Inner(depth).enc(r[i]) == Inner(depth).enc(xs[i]) {
        ValueAlike(xs[i], depth - 1);
      }
    }
    ItemsWrite(Inner(depth), r, xs);
  }

  lemma ItemsWrite(inner: Codec<Value>, xs: seq<Value>, ys: seq<Value>)
    requires |xs| == |ys| && forall i :: 0 <= i < |xs| ==> inner.enc(xs[i]) == inner.enc(ys[i])
    ensures ItemsOf(inner).enc(Values(xs)) == ItemsOf(inner).enc(Values(ys))
  {
    hide EncAll, LittleEndian;
    SameAll(inner, xs, ys);
  }

  lemma NamedWrite(inner: Codec<Value>, xs: Fields, ys: Fields)
    requires |xs| == |ys| && forall i :: 0 <= i < |xs| ==> xs[i].0 == ys[i].0 && inner.enc(xs[i].1) == inner.enc(ys[i].1)
    ensures EncAll(NamedValue(inner), xs) == EncAll(NamedValue(inner), ys)
  {
    hide Pair, SmallStringCodec, EncAll;
    PairShape(SmallStringCodec(), inner);
    SameAll(NamedValue(inner), xs, ys);
  }

  lemma {:induction false} ListAlike(fs: Fields, depth: nat)
    requires WritableList(fs, depth)
    ensures EncAll(NamedValue(ValueCodec(depth)), RepairedList(fs, depth)) == EncAll(NamedValue(ValueCodec(depth)), fs)
    decreases depth
  {
    hide Writable, Repaired, ValueCodec, NamedValue, EncAll;
    var r := RepairedList(fs, depth);
    forall i | 0 <= i < |fs| ensures r[i].0 == fs[i].0 && ValueCodec(depth).enc(r[i].1) == ValueCodec(depth).enc(fs[i].1) {
      ValueAlike(fs[i].1, depth);
    }
    NamedWrite(ValueCodec(depth), r, fs);
  }

  lemma UntypedAlike(fs: Fields, depth: nat)
    requires Sortable(fs)
    requires EncAll(NamedValue(ValueCodec(depth)), RepairedList(Sort(fs), depth)) == EncAll(NamedValue(ValueCodec(depth)), Sort(fs))
    ensures StructOf(ValueCodec(depth)).enc(RepairedList(Sort(fs), depth)) == StructOf(ValueCodec(depth)).enc(fs)
  {
    hide Repaired, ValueCodec, NamedValue, EncAll, RepairedList, Sort, Sorted, Ordered, Sortable, WritableList, LittleEndian;
    var r := RepairedList(Sort(fs), depth);
    SortedList(fs, depth);
    SortedIsOrdered(r);
    SortKeeps(r);
    StructWrites(ValueCodec(depth), fs);
    StructWrites(ValueCodec(depth), r);
  }

  lemma StructWrites(inner: Codec<Value>, fs: Fields)
    ensures StructOf(inner).enc(fs) == LittleEndian(|Sort(fs)|, 4) + EncAll(NamedValue(inner), Sort(fs))
  {
    hide NamedValue, Sort, EncAll, LittleEndian;
  }

  lemma RecordCore(depth: nat, f: FieldType)
    requires f.tag == STRUCT
    ensures Core(depth, f) == RecordOf(if f.structure.fields == [] then StructOf(Inner(depth)) else StructBy(depth, f.structure))
  {
    hide ValueCodec, StructBy, StructOf;
  }

  lemma RecordParts(v: Value, f: FieldType, depth: nat, fs: Fields)
    requires Writable(v, f, depth) && Standing(v, f.tag) == Record(fs)
    ensures f.tag == STRUCT
    ensures f.structure.fields != [] ==> WritableBy(fs, f.structure, depth) && Repaired(v, f, depth) == Record(RepairedBy(fs, f.structure, depth))
    ensures f.structure.fields == [] ==>
      && Sortable(fs) && (depth > 0 ==> WritableList(fs, depth - 1))
      && Repaired(v, f, depth) == Record(if depth == 0 then fs else RepairedList(Sort(fs), depth - 1))
  {
    hide RepairedBy, WritableBy, RepairedList, Sortable, Sort, Short, FlatFits;
    ZeroTag(v, f.tag);
  }

  lemma {:induction false} RecordAlike(v: Value, f: FieldType, depth: nat, fs: Fields)
    requires Writable(v, f, depth) && Standing(v, f.tag) == Record(fs)
    ensures Core(depth, f).enc(Repaired(v, f, depth)) == Core(depth, f).enc(Standing(v, f.tag))
    decreases depth, f, 1
  {
    hide ValueCodec, StructBy, StructOf, Core, RepairedBy, WritableBy, RepairedList, Sortable, Sort, Writable, Repaired, WritableList,
         NamedValue, EncAll, Sorted;
    RecordParts(v, f, depth, fs);
    RecordCore(depth, f);
    if f.structure.fields != [] {
      ByAlike(fs, f.structure, depth);
    } else if depth > 0 {
      SortedList(fs, depth - 1);
      ListAlike(Sort(fs), depth - 1);
      UntypedAlike(fs, depth - 1);
    }
  }

  lemma ByWrites(depth: nat, s: Schema, fs: Fields)
    requires s.fields != []
    ensures StructBy(depth, s).enc(fs) == EncRow(RowCodecs(depth, s), FieldValues(s, fs)) +
      if AllowsExtras(s) then LittleEndian(|ExtrasWritten(s, fs)|, 4) + EncAll(NamedValue(Inner(depth)), ExtrasWritten(s, fs)) else []
  {
    hide Payload, ValueCodec, FieldValues, ExtrasWritten, NamedValue, Pair, EncRow, EncAll, LittleEndian;
    StructByIs(depth, s);
    PairShape(Row(RowCodecs(depth, s)), Listed(NamedValue(Inner(depth))));
  }

  /** A struct and what comes back of it are written the same way. */
  lemma {:induction false} ByAlike(fs: Fields, s: Schema, depth: nat)
    requires WritableBy(fs, s, depth)
    ensures StructBy(depth, s).enc(RepairedBy(fs, s, depth)) == StructBy(depth, s).enc(fs)
    decreases depth, s, 3
  {
    hide StructBy, RepairedBy, GoodSchema, Sorted, Clean, Writable, WritableList, Repaired, RepairedList, Payload, EncRow, EncAll,
         LittleEndian, NamedValue, Extras, ExtrasWritten, FieldValues, ValueCodec, HasAll;
    var r := RepairedBy(fs, s, depth);
    RepairedApart(fs, s, depth);
    assert |RowCodecs(depth, s)| == |s.fields|;
    forall i | 0 <= i < |s.fields|
      ensures RowCodecs(depth, s)[i].enc(RepairedValues(fs, s, depth)[i]) == RowCodecs(depth, s)[i].enc(FieldValues(s, fs)[i])
    {
      WritesAlike(FieldValues(s, fs)[i], s.fields[i].1, depth);
    }
    SameRow(RowCodecs(depth, s), RepairedValues(fs, s, depth), FieldValues(s, fs));
    ByWrites(depth, s, fs);
    ByWrites(depth, s, r);
    if AllowsExtras(s) {
      WrittenExtras(s, fs);
      WrittenExtras(s, r);
      ExtrasAlike(fs, s, depth);
    }
  }

  lemma WrittenExtras(s: Schema, fs: Fields)
    requires GoodSchema(s) && Sorted(fs)
    ensures ExtrasWritten(s, fs) == Extras(s, fs)
  {
    hide Sorted;
    SortedIsDistinct(fs);
    ShortcutIsSafe(s, fs);
  }

  lemma {:induction false} ExtrasAlike(fs: Fields, s: Schema, depth: nat)
    requires AllowsExtras(s) && (Extras(s, fs) == [] || (depth > 0 && WritableList(Extras(s, fs), depth - 1)))
    ensures |RepairedExtras(fs, s, depth)| == |Extras(s, fs)|
    ensures EncAll(NamedValue(Inner(depth)), RepairedExtras(fs, s, depth)) == EncAll(NamedValue(Inner(depth)), Extras(s, fs))
    decreases depth, s, 0
  {
    hide WritableList, RepairedList, EncAll, NamedValue, ValueCodec, Extras;
    if Extras(s, fs) != [] { ListAlike(Extras(s, fs), depth - 1); }
  }

  lemma {:induction false} RowsAlike(v: Value, f: FieldType, depth: nat, s: Schema, rows: seq<Fields>)
    requires Writable(v, f, depth) && Standing(v, f.tag) == Records(s, rows)
    ensures Core(depth, f).enc(Repaired(v, f, depth)) == Core(depth, f).enc(Standing(v, f.tag))
    decreases depth, f, 0
  {
    hide ValueCodec, StructBy, Core, RepairedBy, WritableBy, SchemaFits, EncAll;
    ZeroTag(v, f.tag);
    var r := Repaired(v, f, depth);
    if f.structure.fields != [] {
      forall i | 0 <= i < |rows| ensures StructBy(depth, f.structure).enc(RowsOf(r)[i]) == StructBy(depth, f.structure).enc(rows[i]) {
        ByAlike(rows[i], f.structure, depth);
      }
      SameAll(StructBy(depth, f.structure), RowsOf(r), rows);
      TypedRowsWrite(depth, f, r);
      TypedRowsWrite(depth, f, Records(s, rows));
    } else {
      forall i | 0 <= i < |rows| ensures StructBy(depth - 1, s).enc(r.rows[i]) == StructBy(depth - 1, s).enc(rows[i]) {
        ByAlike(rows[i], s, depth - 1);
      }
      SameAll(StructBy(depth - 1, s), r.rows, rows);
      CarriedRowsWrite(depth, f, r);
      CarriedRowsWrite(depth, f, Records(s, rows));
    }
  }

  lemma TypedRowsWrite(depth: nat, f: FieldType, v: Value)
    requires f.tag == ARRAY_STRUCT && f.structure.fields != []
    ensures Core(depth, f).enc(v) == LittleEndian(|RowsOf(v)|, 4) + EncAll(StructBy(depth, f.structure), RowsOf(v))
  {
    hide ValueCodec, StructBy, EncAll, LittleEndian;
    assert Core(depth, f) == RecordsBy(f.structure, StructBy(depth, f.structure));
  }

  lemma CarriedRowsWrite(depth: nat, f: FieldType, v: Value)
    requires f.tag == ARRAY_STRUCT && f.structure.fields == [] && depth > 0 && v.Records?
    requires v.rows != [] ==> v.schema.fields != []
    ensures Core(depth, f).enc(v) == LittleEndian(|v.rows|, 4) +
      if v.schema.fields == [] then [] else SchemaCodec(depth).enc(v.schema) + EncAll(StructBy(depth - 1, v.schema), v.rows)
  {
    hide ValueCodec, ByFields, StructOf, SchemaCodec, EncAll, LittleEndian, Payload;
    var rowOf := (x: Schema) => StructBy(depth - 1, x);
    assert Core(depth, f) == SelfDescribed(SchemaCodec(depth), rowOf, StructOf(ValueCodec(depth - 1)));
    if v.rows == [] { NoItems(StructOf(ValueCodec(depth - 1))); }
  }
}
