/** Which values come back from the wire: exactly those of which, at no depth, a field was missing, of
    another type or forbidden. */
module VmReturns {
  import opened Wrappers
  import opened Words64
  import opened Codecs
  import opened WireFormat
  import opened FaithfulCodecs
  import opened VmNames
  import opened VmValues
  import opened VmFlat
  import opened VmSchemas
  import opened VmStructs
  import opened VmCodec
  import opened VmLaws
  import opened VmRepairs

  // ---- nothing to repair --------------------------------------------------------------------

  /** At no depth is a field missing, of another type, or forbidden; nor is there a null pointer, an
      unsorted struct, or an array of structs under another schema than its own. */
  predicate Intact(v: Value, f: FieldType, depth: nat)
    decreases depth, f
  {
    && TagOf(v) == f.tag
    && match v
       case Nothing => false
       case Dynamic(x) => depth > 0 ==> Intact(x, Untyped(TagOf(x)), depth - 1)
       case Values(xs) => depth > 0 ==> forall i :: 0 <= i < |xs| ==> Intact(xs[i], Untyped(TagOf(xs[i])), depth - 1)
       case Record(fs) =>
         if f.structure.fields != [] then IntactBy(fs, f.structure, depth) else Sorted(fs) && (depth > 0 ==> IntactList(fs, depth - 1))
       case Records(s, rows) =>
         if f.structure.fields != [] then
           v == RecordsWith(f.structure, rows) && forall i :: 0 <= i < |rows| ==> IntactBy(rows[i], f.structure, depth)
         else depth > 0 ==> forall i :: 0 <= i < |rows| ==> IntactBy(rows[i], s, depth - 1)
       case _ => true
  }

  predicate IntactList(fs: Fields, depth: nat)
    decreases depth
  {
    forall i :: 0 <= i < |fs| ==> Intact(fs[i].1, Untyped(TagOf(fs[i].1)), depth)
  }

  predicate IntactBy(fs: Fields, s: Schema, depth: nat)
    decreases depth, s
  {
    && HasAll(s, fs) && (forall i :: 0 <= i < |s.fields| ==> Intact(FieldValues(s, fs)[i], s.fields[i].1, depth))
    && (if AllowsExtras(s) then depth > 0 ==> IntactList(Extras(s, fs), depth - 1) else Extras(s, fs) == [])
  }

  // ---- when there was nothing to repair -----------------------------------------------------

  /** What comes back is the value itself exactly when it is intact. */
  lemma {:induction false} RepairsNothing(v: Value, f: FieldType, depth: nat)
    requires Writable(v, f, depth)
    ensures Repaired(v, f, depth) == v <==> Intact(v, f, depth)
    decreases depth, f, 2
  {
    hide Storable;
    RepairIsStorable(v, f, depth);
    StorableTag(Repaired(v, f, depth), f, depth);
    hide Writable, Repaired, Intact;
    if TagOf(v) != f.tag {
      Mistyped(v, f, depth);
    } else {
      match v {
        case Dynamic(x) => PointedSame(v, f, depth, x);
        case Values(xs) => ValuesSame(v, f, depth, xs);
        case Record(fs) => RecordSame(v, f, depth, fs);
        case Records(s, rows) => RowsSame(v, f, depth, s, rows);
        case _ => PlainSame(v, f, depth);
      }
    }
  }

  lemma Mistyped(v: Value, f: FieldType, depth: nat)
    requires TagOf(v) != f.tag
    ensures !Intact(v, f, depth)
  {
  }

  lemma PlainSame(v: Value, f: FieldType, depth: nat)
    requires TagOf(v) == f.tag && !v.Dynamic? && !v.Values? && !v.Record? && !v.Records?
    ensures Repaired(v, f, depth) == v <==> Intact(v, f, depth)
  {
  }

  lemma {:induction false} PointedSame(v: Value, f: FieldType, depth: nat, x: Value)
    requires Writable(v, f, depth) && TagOf(v) == f.tag && v == Dynamic(x)
    ensures Repaired(v, f, depth) == v <==> Intact(v, f, depth)
    decreases depth, f, 0
  {
    RepairsNothing(x, Untyped(TagOf(x)), depth - 1);
  }

  lemma {:induction false} ValuesSame(v: Value, f: FieldType, depth: nat, xs: seq<Value>)
    requires Writable(v, f, depth) && TagOf(v) == f.tag && v == Values(xs)
    ensures Repaired(v, f, depth) == v <==> Intact(v, f, depth)
    decreases depth, f, 0
  {
    if xs != [] {
      var first := xs[0];
      assert depth > 0;
      var r := Repaired(v, f, depth).items;
      forall i | 0 <= i < |xs| ensures r[i] == xs[i] <==> Intact(xs[i], Untyped(TagOf(xs[i])), depth - 1) {
        RepairsNothing(xs[i], Untyped(TagOf(xs[i])), depth - 1);
      }
      assert r == xs <==> forall i :: 0 <= i < |xs| ==> r[i] == xs[i];
    }
  }

  lemma {:induction false} ListSame(fs: Fields, depth: nat)
    requires WritableList(fs, depth)
    ensures RepairedList(fs, depth) == fs <==> IntactList(fs, depth)
    decreases depth
  {
    hide Writable, Repaired, Intact;
    var r := RepairedList(fs, depth);
    forall i | 0 <= i < |fs| ensures r[i] == fs[i] <==> Intact(fs[i].1, Untyped(TagOf(fs[i].1)), depth) {
      RepairsNothing(fs[i].1, Untyped(TagOf(fs[i].1)), depth);
      assert r[i] == (fs[i].0, Repaired(fs[i].1, Untyped(TagOf(fs[i].1)), depth));
    }
    assert r == fs <==> forall i :: 0 <= i < |fs| ==> r[i] == fs[i];
  }

  lemma {:induction false} UntypedSame(fs: Fields, f: FieldType, depth: nat)
    requires Sortable(fs) && (fs == [] || (depth > 0 && WritableList(fs, depth - 1)))
    ensures (if depth == 0 then fs else RepairedList(Sort(fs), depth - 1)) == fs <==> Sorted(fs) && (depth > 0 ==> IntactList(fs, depth - 1))
    decreases depth, f, 0
  {
    hide Sort, Sorted, Ordered, Sortable, RepairedList, IntactList, WritableList;
    if depth == 0 {
      NothingSorted();
    } else {
      NothingListed(depth - 1);
      SortedList(fs, depth - 1);
      if Sorted(fs) {
        SortedIsOrdered(fs);
        SortKeeps(fs);
        ListSame(fs, depth - 1);
      }
    }
  }

  lemma NothingListed(depth: nat)
    ensures WritableList([], depth)
  {
  }

  lemma {:induction false} RecordSame(v: Value, f: FieldType, depth: nat, fs: Fields)
    requires Writable(v, f, depth) && TagOf(v) == f.tag && v == Record(fs)
    ensures Repaired(v, f, depth) == v <==> Intact(v, f, depth)
    decreases depth, f, 1
  {
    hide RepairedBy, WritableBy, RepairedList, Sortable, Sort, WritableList, Sorted, IntactBy, IntactList;
    RecordParts(v, f, depth, fs);
    if f.structure.fields != [] {
      BySame(fs, f.structure, depth);
    } else {
      UntypedSame(fs, f, depth);
    }
  }

  lemma {:induction false} RowsSame(v: Value, f: FieldType, depth: nat, s: Schema, rows: seq<Fields>)
    requires Writable(v, f, depth) && TagOf(v) == f.tag && v == Records(s, rows)
    ensures Repaired(v, f, depth) == v <==> Intact(v, f, depth)
    decreases depth, f, 0
  {
    hide RepairedBy, WritableBy, IntactBy, SchemaFits;
    if f.structure.fields != [] {
      var r := seq(|rows|, i requires 0 <= i < |rows| => RepairedBy(rows[i], f.structure, depth));
      forall i | 0 <= i < |rows| ensures r[i] == rows[i] <==> IntactBy(rows[i], f.structure, depth) {
        BySame(rows[i], f.structure, depth);
      }
      assert r == rows <==> forall i :: 0 <= i < |rows| ==> r[i] == rows[i];
      assert Repaired(v, f, depth) == RecordsWith(f.structure, r);
    } else {
      var r := Repaired(v, f, depth).rows;
      forall i | 0 <= i < |rows| ensures r[i] == rows[i] <==> IntactBy(rows[i], s, depth - 1) {
        BySame(rows[i], s, depth - 1);
      }
      assert r == rows <==> forall i :: 0 <= i < |rows| ==> r[i] == rows[i];
    }
  }

  /** A struct comes back as it is exactly when every schema field is there and intact, and every other
      field is allowed and intact. */
  lemma {:induction false} BySame(fs: Fields, s: Schema, depth: nat)
    requires WritableBy(fs, s, depth)
    ensures RepairedBy(fs, s, depth) == fs <==> IntactBy(fs, s, depth)
    decreases depth, s, 3
  {
    hide RepairedBy, GoodSchema, Sorted, Clean, Writable, WritableList, Repaired, Extras, FieldValues, HasAll, Intact, IntactList, Holds,
         RepairedExtras;
    RepairedApart(fs, s, depth);
    var vs := RepairedValues(fs, s, depth);
    forall i | 0 <= i < |s.fields| ensures vs[i] == FieldValues(s, fs)[i] <==> Intact(FieldValues(s, fs)[i], s.fields[i].1, depth) {
      RepairsNothing(FieldValues(s, fs)[i], s.fields[i].1, depth);
    }
    assert vs == FieldValues(s, fs) <==> forall i :: 0 <= i < |s.fields| ==> vs[i] == FieldValues(s, fs)[i];
    ExtrasSame(fs, s, depth);
    TakenOrPut(fs, s, depth);
  }

  lemma {:induction false} ExtrasSame(fs: Fields, s: Schema, depth: nat)
    requires AllowsExtras(s) ==> Extras(s, fs) == [] || (depth > 0 && WritableList(Extras(s, fs), depth - 1))
    ensures RepairedExtras(fs, s, depth) == Extras(s, fs) <==>
      if AllowsExtras(s) then depth > 0 ==> IntactList(Extras(s, fs), depth - 1) else Extras(s, fs) == []
    decreases depth, s, 0
  {
    hide WritableList, RepairedList, IntactList, Extras;
    if AllowsExtras(s) && depth > 0 {
      NothingListed(depth - 1);
      ListSame(Extras(s, fs), depth - 1);
    }
  }

  /** The repair is the struct itself exactly when its values and extra fields are the struct's own. */
  lemma TakenOrPut(fs: Fields, s: Schema, depth: nat)
    requires WritableBy(fs, s, depth)
    ensures RepairedBy(fs, s, depth) == fs <==>
      HasAll(s, fs) && RepairedValues(fs, s, depth) == FieldValues(s, fs) && RepairedExtras(fs, s, depth) == Extras(s, fs)
  {
    hide Assemble, GoodSchema, Sorted, Clean, Writable, WritableList, RepairedValues, RepairedExtras, Extras, FieldValues, HasAll;
    RepairedApart(fs, s, depth);
    if HasAll(s, fs) && RepairedValues(fs, s, depth) == FieldValues(s, fs) && RepairedExtras(fs, s, depth) == Extras(s, fs) {
      if !AllowsExtras(s) {
        NoExtrasRepaired(fs, s, depth);
        NoneLeftOver(s, fs);
      }
      AssembledAgain(s, fs);
    }
  }

  // ---- writing and reading back -------------------------------------------------------------

  /** Whatever usable struct is written, the reader takes exactly its image and returns the repair; it
      accepts no strict prefix. */
  lemma ComesBackRepaired(s: Schema, fs: Fields, depth: nat, rest: seq<Byte>)
    requires WritableBy(fs, s, depth)
    ensures ReadStruct(s, StructBy(depth, s).enc(fs) + rest) == Some((RepairedBy(fs, s, depth), |StructBy(depth, s).enc(fs)|))
    ensures forall k :: 0 <= k < |StructBy(depth, s).enc(fs)| ==> ReadStruct(s, StructBy(depth, s).enc(fs)[..k]) == None
  {
    hide StructBy, ReadStruct, RepairedBy, WritableBy, StorableBy;
    ByIsStorable(fs, s, depth);
    ByAlike(fs, s, depth);
    StructRoundTrip(s, RepairedBy(fs, s, depth), depth, rest);
  }

  /** A usable struct comes back under its schema exactly when at no depth a field was missing, of
      another type or forbidden. */
  lemma ComesBackExactly(s: Schema, fs: Fields, depth: nat, rest: seq<Byte>)
    requires WritableBy(fs, s, depth)
    ensures
      var image := StructBy(depth, s).enc(fs);
      ReadStruct(s, image + rest) == Some((fs, |image|)) <==> IntactBy(fs, s, depth)
  {
    hide StructBy, ReadStruct, RepairedBy, WritableBy, IntactBy;
    ComesBackRepaired(s, fs, depth, rest);
    BySame(fs, s, depth);
  }

  /** The same for a value with its type byte. */
  lemma ValueComesBackRepaired(v: Value, depth: nat, rest: seq<Byte>)
    requires Writable(v, Untyped(TagOf(v)), depth)
    ensures ReadValue(ValueCodec(depth).enc(v) + rest) == Some((Repaired(v, Untyped(TagOf(v)), depth), |ValueCodec(depth).enc(v)|))
    ensures forall k :: 0 <= k < |ValueCodec(depth).enc(v)| ==> ReadValue(ValueCodec(depth).enc(v)[..k]) == None
  {
    hide ValueCodec, ReadValue, Repaired, Writable, Storable;
    RepairIsStorable(v, Untyped(TagOf(v)), depth);
    ValueAlike(v, depth);
    ValueRoundTrip(Repaired(v, Untyped(TagOf(v)), depth), depth, rest);
  }

  lemma ValueComesBackExactly(v: Value, depth: nat, rest: seq<Byte>)
    requires Writable(v, Untyped(TagOf(v)), depth)
    ensures
      var image := ValueCodec(depth).enc(v);
      ReadValue(image + rest) == Some((v, |image|)) <==> Intact(v, Untyped(TagOf(v)), depth)
  {
    hide ValueCodec, ReadValue, Repaired, Writable, Intact;
    ValueComesBackRepaired(v, depth, rest);
    RepairsNothing(v, Untyped(TagOf(v)), depth);
  }

  // ---- the storable values ------------------------------------------------------------------

  lemma {:induction false} StorableIsWritable(v: Value, f: FieldType, depth: nat)
    requires Storable(v, f, depth)
    ensures Writable(v, f, depth) && TagOf(v) == f.tag
    decreases depth, f, 2
  {
    hide SchemaFits, FlatFits, StorableBy, WritableBy, StorableFields, WritableList, Sorted, Clean, Distinct;
    match v {
      case Dynamic(x) => StorableIsWritable(x, Untyped(TagOf(x)), depth - 1);
      case Values(xs) =>
        ItemsWritable(v, f, depth, xs);
      case Record(fs) =>
        if f.structure.fields != [] {
          StorableByIsWritable(fs, f.structure, depth);
        } else if fs != [] {
          StorableListIsWritable(fs, depth - 1);
        }
      case Records(s, rows) =>
        if f.structure.fields != [] {
          forall i | 0 <= i < |rows| ensures WritableBy(rows[i], f.structure, depth) {
            StorableByIsWritable(rows[i], f.structure, depth);
          }
        } else {
          forall i | 0 <= i < |rows| ensures WritableBy(rows[i], s, depth - 1) {
            StorableByIsWritable(rows[i], s, depth - 1);
          }
        }
      case _ =>
    }
  }

  lemma {:induction false} ItemsWritable(v: Value, f: FieldType, depth: nat, xs: seq<Value>)
    requires Storable(v, f, depth) && v == Values(xs)
    ensures Writable(v, f, depth)
    decreases depth, f, 0
  {
    if xs != [] {
      var first := xs[0];
      assert depth > 0;
      forall i | 0 <= i < |xs| ensures Writable(xs[i], Untyped(TagOf(xs[i])), depth - 1) {
        StorableIsWritable(xs[i], Untyped(TagOf(xs[i])), depth - 1);
      }
    }
  }

  lemma {:induction false} StorableListIsWritable(fs: Fields, depth: nat)
    requires StorableFields(fs, depth)
    ensures WritableList(fs, depth)
    decreases depth
  {
    hide Storable, Writable;
    forall i | 0 <= i < |fs| ensures Writable(fs[i].1, Untyped(TagOf(fs[i].1)), depth) {
      StorableIsWritable(fs[i].1, Untyped(TagOf(fs[i].1)), depth);
    }
  }

  lemma {:induction false} StorableByIsWritable(fs: Fields, s: Schema, depth: nat)
    requires s.fields != [] && StorableBy(fs, s, depth)
    ensures WritableBy(fs, s, depth)
    decreases depth, s, 3
  {
    hide Storable, Writable, GoodSchema, HasAll, Sorted, Clean, FieldValues, Extras, StorableFields, WritableList;
    forall i | 0 <= i < |s.fields| ensures Writable(FieldValues(s, fs)[i], s.fields[i].1, depth) {
      StorableIsWritable(FieldValues(s, fs)[i], s.fields[i].1, depth);
    }
    if AllowsExtras(s) && Extras(s, fs) != [] { StorableListIsWritable(Extras(s, fs), depth - 1); }
  }

  lemma SameImage(c: Codec<Value>, v: Value, w: Value)
    requires Faithful(c) && c.fits(v) && c.fits(w) && c.enc(v) == c.enc(w)
    ensures v == w
  {
    hide Faithful;
    FaithfulReadsBack(c, v, []);
    FaithfulReadsBack(c, w, []);
  }

  /** The storable values are the usable ones that are intact. */
  lemma StorableExactly(v: Value, f: FieldType, depth: nat)
    ensures Storable(v, f, depth) <==> Writable(v, f, depth) && Intact(v, f, depth)
  {
    hide Storable, Writable, Intact, Repaired, Payload, Faithful;
    if Storable(v, f, depth) { StorableIsWritable(v, f, depth); }
    if Writable(v, f, depth) {
      RepairIsStorable(v, f, depth);
      RepairsNothing(v, f, depth);
      if Storable(v, f, depth) {
        FitsIs(depth, f, v);
        FitsIs(depth, f, Repaired(v, f, depth));
        WritesAlike(v, f, depth);
        PayloadFaithful(depth, f);
        SameImage(Payload(depth, f), v, Repaired(v, f, depth));
      }
    }
  }

  // ---- a failure below the top ---------------------------------------------------------------

  function NestedSchema(): Schema { Schema([([98], FieldType(6, EMPTY_SCHEMA))], 0) }
  function OuterSchema(): Schema { Schema([([97], FieldType(STRUCT, NestedSchema()))], 0) }
  function OuterStruct(nested: Fields): Fields { [([97], Record(nested))] }

  /** A nested field of another type, and none at all. */
  function NestedText(): Fields { [([98], Text([]))] }
  function NestedZero(): Fields { [([98], Whole(1, 0))] }

  lemma NestedIs(nested: Fields)
    requires nested == NestedText() || nested == []
    ensures WritableBy(nested, NestedSchema(), 0) && RepairedBy(nested, NestedSchema(), 0) == NestedZero()
  {
    assert FieldValues(NestedSchema(), nested)[0] == if nested == [] then Whole(1, 0) else Text([]);
    assert RepairedValues(nested, NestedSchema(), 0) == [Whole(1, 0)];
    assert Zip(NestedSchema().fields, [Whole(1, 0)]) == NestedZero();
  }

  lemma OuterIs(nested: Fields)
    requires nested == NestedText() || nested == []
    ensures WritableBy(OuterStruct(nested), OuterSchema(), 0) && RepairedBy(OuterStruct(nested), OuterSchema(), 0) == OuterStruct(NestedZero())
    ensures FieldValues(OuterSchema(), OuterStruct(nested)) == [Record(nested)]
    ensures WriterAnswers(OuterSchema(), OuterStruct(nested)) && Extras(OuterSchema(), OuterStruct(nested)) == []
  {
    hide WritableBy, RepairedBy;
    NestedIs(nested);
    OuterWritable(nested);
    OuterRepaired(nested);
  }

  lemma OuterWritable(nested: Fields)
    requires WritableBy(nested, NestedSchema(), 0)
    ensures WritableBy(OuterStruct(nested), OuterSchema(), 0)
  {
    assert FieldValues(OuterSchema(), OuterStruct(nested))[0] == Record(nested);
    assert Writable(Record(nested), FieldType(STRUCT, NestedSchema()), 0);
  }

  lemma OuterRepaired(nested: Fields)
    requires RepairedBy(nested, NestedSchema(), 0) == NestedZero()
    ensures RepairedBy(OuterStruct(nested), OuterSchema(), 0) == OuterStruct(NestedZero())
  {
    assert FieldValues(OuterSchema(), OuterStruct(nested))[0] == Record(nested);
    assert RepairedValues(OuterStruct(nested), OuterSchema(), 0) == [Record(NestedZero())];
    assert Zip(OuterSchema().fields, [Record(NestedZero())]) == OuterStruct(NestedZero());
  }

  /** The answer does not look below the top either: a nested struct whose field is of another type, or
      missing altogether, is answered as written and comes back with a zero. */
  lemma AnswerMissesNested(nested: Fields, rest: seq<Byte>)
    requires nested == NestedText() || nested == []
    ensures
      var s, fs := OuterSchema(), OuterStruct(nested);
      var image := StructBy(0, s).enc(fs);
      && WriterAnswers(s, fs) && Extras(s, fs) == [] && TagOf(FieldValues(s, fs)[0]) == s.fields[0].1.tag
      && ReadStruct(s, image + rest) == Some((OuterStruct(NestedZero()), |image|)) && OuterStruct(NestedZero()) != fs
  {
    hide StructBy, ReadStruct, RepairedBy, WritableBy;
    OuterIs(nested);
    ComesBackRepaired(OuterSchema(), OuterStruct(nested), 0, rest);
  }
}
