/** The wire form of structs: untyped, laid out by a schema, and in arrays that carry their schema. */
module VmStructs {
  import opened Wrappers
  import opened Words64
  import opened Codecs
  import opened WireFormat
  import opened FaithfulCodecs
  import opened VmNames
  import opened VmValues
  import opened VmFlat
  import opened VmSchemas

  // ---- untyped structs ----------------------------------------------------------------------

  function NamedValue(inner: Codec<Value>): Codec<Named<Value>> {
    Pair(SmallStringCodec(), inner)
  }

  function FieldList(inner: Codec<Value>): Codec<Fields> {
    ArrayOf(NamedValue(inner), 1)
  }

  /** Both the writer and the reader put the fields in name order. */
  function StructOf(inner: Codec<Value>): Codec<Fields> {
    Mapped(FieldList(inner), (fs: Fields) => Sort(fs), (fs: Fields) => Sort(fs), (fs: Fields) => Sorted(fs) && FieldList(inner).fits(fs))
  }

  lemma NamedFaithful(inner: Codec<Value>)
    requires Faithful(inner)
    ensures Faithful(NamedValue(inner)) && NamedValue(inner).least >= 1
  {
    hide Faithful, SmallStringCodec, Pair;
    NameFaithful();
    PairFaithful(SmallStringCodec(), inner);
  }

  lemma StructFaithful(inner: Codec<Value>)
    requires Faithful(inner)
    ensures Faithful(StructOf(inner)) && StructOf(inner).least == 4
  {
    hide Faithful, NamedValue, ArrayOf, Sort, Sorted;
    NamedFaithful(inner);
    ArrayFaithful(NamedValue(inner), 1);
    forall fs: Fields | Sorted(fs) ensures Sort(fs) == fs {
      SortedIsOrdered(fs);
      SortKeeps(fs);
    }
    hide FieldList;
    MappedFaithful(FieldList(inner), (fs: Fields) => Sort(fs), (fs: Fields) => Sort(fs), (fs: Fields) => Sorted(fs) && FieldList(inner).fits(fs));
  }

  lemma NamedGrows(inner: Codec<Value>, wider: Codec<Value>, n: int)
    requires Grows(inner, wider, n)
    ensures Grows(NamedValue(inner), NamedValue(wider), n)
  {
    hide Grows, SmallStringCodec, Pair;
    SameGrows(SmallStringCodec(), n);
    PairGrows(SmallStringCodec(), SmallStringCodec(), inner, wider, n);
  }

  lemma StructGrows(inner: Codec<Value>, wider: Codec<Value>, n: int)
    requires Grows(inner, wider, n)
    ensures Grows(StructOf(inner), StructOf(wider), n)
  {
    hide NamedValue, ArrayOf, Sort, Sorted;
    NamedGrows(inner, wider, n);
    ArrayGrows(NamedValue(inner), NamedValue(wider), 1, n);
    forall fs: Fields | Sorted(fs) ensures Sort(fs) == fs {
      SortedIsOrdered(fs);
      SortKeeps(fs);
    }
    hide FieldList;
    MappedGrows(FieldList(inner), FieldList(wider), (fs: Fields) => Sort(fs), (fs: Fields) => Sort(fs),
                (fs: Fields) => Sorted(fs) && FieldList(inner).fits(fs), (fs: Fields) => Sorted(fs) && FieldList(wider).fits(fs), n);
  }

  // ---- structs laid out by a schema ---------------------------------------------------------

  /** The value of each schema field in turn; a missing one is zeroed. */
  function FieldValues(s: Schema, fs: Fields): (vs: seq<Value>)
    ensures |vs| == |s.fields|
  {
    seq(|s.fields|, i requires 0 <= i < |s.fields| =>
      match Find(fs, s.fields[i].0) { case Some(v) => v case None => ZeroOf(s.fields[i].1.tag) })
  }

  predicate HasAll(s: Schema, fs: Fields) {
    forall i :: 0 <= i < |s.fields| ==> Find(fs, s.fields[i].0).Some?
  }

  /** The fields whose names the schema does not list. */
  function Extras(s: Schema, fs: Fields): Fields {
    if fs == [] then []
    else
      var n := |fs| - 1;
      Extras(s, fs[..n]) + (if Find(s.fields, fs[n].0).None? then [fs[n]] else [])
  }

  /** With every schema field found and no other field left over, the writer does not look for any. */
  function ExtrasWritten(s: Schema, fs: Fields): Fields {
    if HasAll(s, fs) && |s.fields| == |fs| then [] else Extras(s, fs)
  }

  function Zip(names: seq<Named<FieldType>>, vs: seq<Value>): (r: Fields)
    ensures |r| == if |vs| == |names| then |names| else 0
  {
    if |vs| != |names| then [] else seq(|names|, i requires 0 <= i < |names| && |vs| == |names| => (names[i].0, vs[i]))
  }

  /** What the reader makes of the values it read: it trusts a schema that claims to be sorted, unless
      extra fields may follow. */
  function Assemble(s: Schema, vs: seq<Value>, extras: Fields): Fields {
    if AllowsExtras(s) then Sort(Zip(s.fields, vs) + extras)
    else if ClaimsSorted(s) then Zip(s.fields, vs)
    else Sort(Zip(s.fields, vs))
  }

  /** A schema with usable names, in order where it claims so and that claim matters. */
  predicate GoodSchema(s: Schema) {
    Clean(s.fields) && Distinct(s.fields) && (ClaimsSorted(s) && !AllowsExtras(s) ==> Ordered(s.fields))
  }

  /** A sorted struct that holds every schema field, and others only where the schema allows them. */
  predicate Holds(s: Schema, fs: Fields) {
    && Sorted(fs) && Clean(fs) && HasAll(s, fs)
    && (AllowsExtras(s) || forall j :: 0 <= j < |fs| ==> Find(s.fields, fs[j].0).Some?)
  }

  lemma {:induction false} ExtraFields(s: Schema, fs: Fields)
    ensures forall x :: x in Extras(s, fs) <==> x in fs && Find(s.fields, x.0).None?
    ensures Distinct(fs) ==> Distinct(Extras(s, fs))
  {
    hide Find;
    if fs != [] {
      var n := |fs| - 1;
      var k := Extras(s, fs[..n]);
      ExtraFields(s, fs[..n]);
      assert fs == fs[..n] + [fs[n]];
      if Distinct(fs) {
        forall i | 0 <= i < |k| ensures k[i].0 != fs[n].0 {
          assert k[i] in k && k[i] in fs[..n];
        }
      }
    }
  }

  /** The schema's own fields of a struct. */
  lemma OwnFields(s: Schema, fs: Fields)
    requires Distinct(fs) && HasAll(s, fs)
    ensures forall x :: x in Zip(s.fields, FieldValues(s, fs)) <==> x in fs && Find(s.fields, x.0).Some?
  {
    hide Find;
    var own := Zip(s.fields, FieldValues(s, fs));
    forall x | x in own ensures x in fs && Find(s.fields, x.0).Some? {
      var i: nat :| i < |own| && own[i] == x;
      FindMember(fs, x);
      FindIs(s.fields, x.0);
    }
    forall x | x in fs && Find(s.fields, x.0).Some? ensures x in own {
      FindIs(s.fields, x.0);
      var i: nat :| i < |s.fields| && s.fields[i] == (x.0, Find(s.fields, x.0).value);
      FindMember(fs, x);
      assert own[i] == x;
    }
  }

  lemma OwnAndExtras(s: Schema, fs: Fields)
    requires GoodSchema(s) && Sorted(fs) && Clean(fs) && HasAll(s, fs)
    ensures
      var all: Fields := Zip(s.fields, FieldValues(s, fs)) + Extras(s, fs);
      SameFields(all, fs) && Distinct(all) && Clean(all)
  {
    hide Find, FieldValues, Extras, HasAll, Sorted;
    SortedIsDistinct(fs);
    OwnFields(s, fs);
    ExtraFields(s, fs);
    var own, extras := Zip(s.fields, FieldValues(s, fs)), Extras(s, fs);
    var all: Fields := own + extras;
    forall i, j | 0 <= i < |own| && 0 <= j < |extras| ensures own[i].0 != extras[j].0 {
      assert own[i] in own && extras[j] in extras;
    }
    forall i | 0 <= i < |all| ensures ZeroFree(all[i].0) {
      assert all[i] in all;
      assert all[i] in own || all[i] in extras;
      CleanMember(fs, all[i]);
    }
  }

  /** The reader puts together the struct the writer took apart. */
  lemma AssembledAgain(s: Schema, fs: Fields)
    requires GoodSchema(s) && Holds(s, fs)
    ensures Assemble(s, FieldValues(s, fs), Extras(s, fs)) == fs
  {
    hide Find, FieldValues, Extras, HasAll, Sort, SameFields, Distinct, Clean, Sorted, Ordered, Zip;
    OwnAndExtras(s, fs);
    var own, extras := Zip(s.fields, FieldValues(s, fs)), Extras(s, fs);
    if !AllowsExtras(s) {
      NoExtras(s, fs);
      assert own + extras == own;
    }
    if AllowsExtras(s) || !ClaimsSorted(s) {
      SortSorted(own + extras);
    } else {
      ZipOrdered(s.fields, FieldValues(s, fs));
      OrderedIsSorted(own);
      SortedUnique(own, fs);
    }
  }

  lemma NoExtras(s: Schema, fs: Fields)
    requires forall j :: 0 <= j < |fs| ==> Find(s.fields, fs[j].0).Some?
    ensures Extras(s, fs) == []
  {
    hide Find;
    ExtraFields(s, fs);
    var e := Extras(s, fs);
    FirstIn(e);
  }

  lemma FirstIn(fs: Fields)
    ensures fs != [] ==> fs[0] in fs
  {
  }

  lemma ZipOrdered(names: seq<Named<FieldType>>, vs: seq<Value>)
    requires Ordered(names) && |vs| == |names|
    ensures Ordered(Zip(names, vs))
  {
    hide NameLess;
    var z := Zip(names, vs);
    forall i, j | 0 <= i < j < |z| ensures !NameLess(z[j].0, z[i].0) {
      assert !NameLess(names[j].0, names[i].0);
    }
  }

  /** The writer's shortcut never drops a field: every schema field found and no more fields than the
      schema lists leaves no extra field. */
  lemma ShortcutIsSafe(s: Schema, fs: Fields)
    requires Distinct(s.fields) && Distinct(fs)
    ensures ExtrasWritten(s, fs) == Extras(s, fs)
  {
    hide Find, FieldValues;
    if HasAll(s, fs) && |s.fields| == |fs| {
      var names := set i | 0 <= i < |s.fields| :: s.fields[i].0;
      var bearers := set j | 0 <= j < |fs| :: fs[j].0;
      NamesCount(s.fields, names);
      NamesCount(fs, bearers);
      forall n | n in names ensures n in bearers {
        FindIs(fs, n);
      }
      SubsetOfSameSize(names, bearers);
      forall j | 0 <= j < |fs| ensures Find(s.fields, fs[j].0).Some? {
        assert fs[j].0 in names;
        FindIs(s.fields, fs[j].0);
      }
      NoExtras(s, fs);
    }
  }

  lemma {:induction false} NamesCount<T>(fs: seq<Named<T>>, names: set<SmallString>)
    requires Distinct(fs) && forall n :: n in names <==> exists i :: 0 <= i < |fs| && fs[i].0 == n
    ensures |names| == |fs|
  {
    if fs != [] {
      var k := |fs| - 1;
      var rest := names - {fs[k].0};
      forall n | n in rest ensures exists i :: 0 <= i < k && fs[..k][i].0 == n {
        var i :| 0 <= i < |fs| && fs[i].0 == n;
        assert fs[..k][i].0 == n;
      }
      forall i | 0 <= i < k ensures fs[..k][i].0 in rest {
        assert fs[i].0 in names;
      }
      NamesCount(fs[..k], rest);
      assert fs[k].0 in names;
    } else {
      assert names == {};
    }
  }

  lemma SubsetOfSameSize<T>(a: set<T>, b: set<T>)
    requires a <= b && |a| == |b|
    ensures a == b
  {
    if a != b {
      var x :| x in b && x !in a;
      assert |b - {x}| == |b| - 1 && a <= b - {x};
      SmallerSet(a, b - {x});
    }
  }

  lemma SmallerSet<T>(a: set<T>, b: set<T>)
    requires a <= b
    ensures |a| <= |b|
  {
    assert b == a + (b - a);
  }

  // ---- the schema-driven codec --------------------------------------------------------------

  ghost predicate PlainFits(s: Schema, cs: seq<Codec<Value>>, fs: Fields) {
    GoodSchema(s) && Holds(s, fs) && RowFits(cs, FieldValues(s, fs))
  }

  ghost predicate OpenFits(s: Schema, cs: seq<Codec<Value>>, inner: Codec<Value>, fs: Fields) {
    PlainFits(s, cs, fs) && Listed(NamedValue(inner)).fits(Extras(s, fs))
  }

  /** The schema fields alone. */
  function PlainFields(s: Schema, cs: seq<Codec<Value>>): Codec<Fields> {
    Mapped(Row(cs), (vs: seq<Value>) => Assemble(s, vs, []), (fs: Fields) => FieldValues(s, fs),
           (fs: Fields) => !AllowsExtras(s) && PlainFits(s, cs, fs))
  }

  /** The schema fields, then the count and the named values of the extra ones. */
  function OpenFields(s: Schema, cs: seq<Codec<Value>>, inner: Codec<Value>): Codec<Fields> {
    Mapped(Pair(Row(cs), Listed(NamedValue(inner))), (p: (seq<Value>, Fields)) => Assemble(s, p.0, p.1),
           (fs: Fields) => (FieldValues(s, fs), ExtrasWritten(s, fs)), (fs: Fields) => OpenFits(s, cs, inner, fs))
  }

  /** For a schema without fields the reader stops at once, although the writer may still write extra
      fields. */
  function NoFields(s: Schema, inner: Codec<Value>): Codec<Fields> {
    Codec((fs: Fields) => if AllowsExtras(s) then Listed(NamedValue(inner)).enc(ExtrasWritten(s, fs)) else [],
          (b: seq<Byte>) => Some(([], 0)), (fs: Fields) => fs == [] && !AllowsExtras(s), 0)
  }

  function ByFields(s: Schema, cs: seq<Codec<Value>>, inner: Codec<Value>): Codec<Fields> {
    if s.fields == [] then NoFields(s, inner)
    else if AllowsExtras(s) then OpenFields(s, cs, inner)
    else PlainFields(s, cs)
  }

  lemma PlainFaithful(s: Schema, cs: seq<Codec<Value>>)
    requires AllFaithful(cs)
    ensures Faithful(PlainFields(s, cs)) && PlainFields(s, cs).least == if cs == [] then 0 else 1
  {
    hide Faithful, AllFaithful, RowFits, Assemble, FieldValues, GoodSchema, Holds, Extras;
    RowFaithful(cs);
    forall fs: Fields | !AllowsExtras(s) && PlainFits(s, cs, fs)
      ensures Row(cs).fits(FieldValues(s, fs)) && Assemble(s, FieldValues(s, fs), []) == fs
    {
      AssembledAgain(s, fs);
      HeldWithoutExtras(s, fs);
    }
    MappedFaithful(Row(cs), (vs: seq<Value>) => Assemble(s, vs, []), (fs: Fields) => FieldValues(s, fs),
                   (fs: Fields) => !AllowsExtras(s) && PlainFits(s, cs, fs));
  }

  lemma HeldWithoutExtras(s: Schema, fs: Fields)
    requires Holds(s, fs) && !AllowsExtras(s)
    ensures Extras(s, fs) == []
  {
    hide Find, HasAll, Sorted, Clean;
    NoExtras(s, fs);
  }

  lemma OpenFaithful(s: Schema, cs: seq<Codec<Value>>, inner: Codec<Value>)
    requires AllFaithful(cs) && Faithful(inner) && AllowsExtras(s)
    ensures Faithful(OpenFields(s, cs, inner)) && OpenFields(s, cs, inner).least >= 4
  {
    hide Faithful, AllFaithful, RowFits, Assemble, FieldValues, GoodSchema, Holds, Extras, ExtrasWritten, NamedValue, Pair, Listed;
    RowFaithful(cs);
    NamedFaithful(inner);
    ListedFaithful(NamedValue(inner));
    PairFaithful(Row(cs), Listed(NamedValue(inner)));
    PairShape(Row(cs), Listed(NamedValue(inner)));
    forall fs: Fields | OpenFits(s, cs, inner, fs)
      ensures Pair(Row(cs), Listed(NamedValue(inner))).fits((FieldValues(s, fs), ExtrasWritten(s, fs)))
      ensures Assemble(s, FieldValues(s, fs), ExtrasWritten(s, fs)) == fs
    {
      AssembledAgain(s, fs);
      HeldIsDistinct(s, fs);
      ShortcutIsSafe(s, fs);
    }
    ListedLeast(NamedValue(inner));
    hide OpenFits;
    MappedFaithful(Pair(Row(cs), Listed(NamedValue(inner))), (p: (seq<Value>, Fields)) => Assemble(s, p.0, p.1),
                   (fs: Fields) => (FieldValues(s, fs), ExtrasWritten(s, fs)), (fs: Fields) => OpenFits(s, cs, inner, fs));
  }

  lemma ListedLeast<T>(c: Codec<T>)
    ensures Listed(c).least == 4
  {
  }

  lemma HeldIsDistinct(s: Schema, fs: Fields)
    requires GoodSchema(s) && Holds(s, fs)
    ensures Distinct(s.fields) && Distinct(fs)
  {
    hide Sorted, HasAll, Find;
    SortedIsDistinct(fs);
  }

  /** A struct that holds what its schema asks for comes back from its image under that schema. */
  lemma ByFieldsFaithful(s: Schema, cs: seq<Codec<Value>>, inner: Codec<Value>)
    requires AllFaithful(cs) && Faithful(inner) && |cs| == |s.fields|
    ensures Faithful(ByFields(s, cs, inner)) && (s.fields != [] ==> ByFields(s, cs, inner).least >= 1)
  {
    if s.fields == [] {
      NoFieldsFaithful(s, inner);
    } else {
      hide Faithful, AllFaithful, PlainFields, OpenFields, NoFields;
      PlainFaithful(s, cs);
      if AllowsExtras(s) { OpenFaithful(s, cs, inner); }
    }
  }

  lemma NoFieldsFaithful(s: Schema, inner: Codec<Value>)
    ensures Faithful(NoFields(s, inner))
  {
  }

  lemma PlainGrows(s: Schema, cs: seq<Codec<Value>>, ds: seq<Codec<Value>>, n: int)
    requires AllGrow(cs, ds, n)
    ensures Grows(PlainFields(s, cs), PlainFields(s, ds), n)
  {
    hide Assemble, FieldValues, GoodSchema, Holds, EncRow, DecRow, AllGrow;
    RowGrows(cs, ds, n);
    hide RowFits;
    forall fs: Fields | PlainFits(s, cs, fs) ensures PlainFits(s, ds, fs) {
      assert Row(cs).fits(FieldValues(s, fs));
    }
    MappedGrows(Row(cs), Row(ds), (vs: seq<Value>) => Assemble(s, vs, []), (fs: Fields) => FieldValues(s, fs),
                (fs: Fields) => !AllowsExtras(s) && PlainFits(s, cs, fs), (fs: Fields) => !AllowsExtras(s) && PlainFits(s, ds, fs), n);
  }

  lemma OpenGrows(s: Schema, cs: seq<Codec<Value>>, ds: seq<Codec<Value>>, inner: Codec<Value>, wider: Codec<Value>, n: int)
    requires AllGrow(cs, ds, n) && Grows(inner, wider, n)
    ensures Grows(OpenFields(s, cs, inner), OpenFields(s, ds, wider), n)
  {
    hide Assemble, FieldValues, GoodSchema, Holds, Row, AllGrow, Extras, ExtrasWritten, NamedValue, Pair, Listed, Grows;
    RowGrows(cs, ds, n);
    NamedGrows(inner, wider, n);
    ListedGrows(NamedValue(inner), NamedValue(wider), n);
    var p, q := Pair(Row(cs), Listed(NamedValue(inner))), Pair(Row(ds), Listed(NamedValue(wider)));
    PairGrows(Row(cs), Row(ds), Listed(NamedValue(inner)), Listed(NamedValue(wider)), n);
    forall fs: Fields | OpenFits(s, cs, inner, fs)
      ensures p.fits((FieldValues(s, fs), ExtrasWritten(s, fs))) && OpenFits(s, ds, wider, fs)
    {
      OpenFitsGrows(s, cs, ds, inner, wider, n, fs);
    }
    hide OpenFits;
    MappedGrows(p, q, (p: (seq<Value>, Fields)) => Assemble(s, p.0, p.1), (fs: Fields) => (FieldValues(s, fs), ExtrasWritten(s, fs)),
                (fs: Fields) => OpenFits(s, cs, inner, fs), (fs: Fields) => OpenFits(s, ds, wider, fs), n);
  }

  lemma OpenFitsGrows(s: Schema, cs: seq<Codec<Value>>, ds: seq<Codec<Value>>, inner: Codec<Value>, wider: Codec<Value>, n: int, fs: Fields)
    requires Grows(Row(cs), Row(ds), n) && Grows(Listed(NamedValue(inner)), Listed(NamedValue(wider)), n)
    requires OpenFits(s, cs, inner, fs)
    ensures Pair(Row(cs), Listed(NamedValue(inner))).fits((FieldValues(s, fs), ExtrasWritten(s, fs))) && OpenFits(s, ds, wider, fs)
  {
    hide Assemble, FieldValues, GoodSchema, Holds, EncRow, DecRow, RowFits, Extras, ExtrasWritten, NamedValue, Pair, Listed;
    PairShape(Row(cs), Listed(NamedValue(inner)));
    HeldIsDistinct(s, fs);
    ShortcutIsSafe(s, fs);
    assert Row(cs).fits(FieldValues(s, fs)) && Row(ds).fits(FieldValues(s, fs));
  }

  lemma ByFieldsGrows(s: Schema, cs: seq<Codec<Value>>, ds: seq<Codec<Value>>, inner: Codec<Value>, wider: Codec<Value>, n: int)
    requires AllGrow(cs, ds, n) && Grows(inner, wider, n)
    ensures Grows(ByFields(s, cs, inner), ByFields(s, ds, wider), n)
  {
    hide Grows, AllGrow, PlainFields, OpenFields, NoFields;
    if s.fields == [] {
      NoFieldsGrows(s, inner, wider, n);
    } else if AllowsExtras(s) {
      OpenGrows(s, cs, ds, inner, wider, n);
    } else {
      PlainGrows(s, cs, ds, n);
    }
  }

  lemma NoFieldsGrows(s: Schema, inner: Codec<Value>, wider: Codec<Value>, n: int)
    ensures Grows(NoFields(s, inner), NoFields(s, wider), n)
  {
  }
}
