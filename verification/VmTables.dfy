/** A struct as its owner holds it: an array of named values in name order, looked up by halving,
    erased from in place, and merged with updates. */
module VmTables {
  import opened Wrappers
  import opened Codecs
  import opened WireFormat
  import opened VmNames
  import opened VmValues

  // ---- what a merge holds -------------------------------------------------------------------

  /** The old fields that no update names. */
  function Kept(base: Fields, updates: Fields): Fields {
    if base == [] then []
    else
      var n := |base| - 1;
      Kept(base[..n], updates) + (if Find(updates, base[n].0).None? then [base[n]] else [])
  }

  /** The updates that carry a value. */
  function Carried(updates: Fields): Fields {
    if updates == [] then []
    else
      var n := |updates| - 1;
      Carried(updates[..n]) + (if updates[n].1.Nothing? then [] else [updates[n]])
  }

  function Merged(base: Fields, updates: Fields): Fields {
    Sort(Kept(base, updates) + Carried(updates))
  }

  lemma {:induction false} KeptFields(base: Fields, updates: Fields)
    ensures forall x :: x in Kept(base, updates) <==> x in base && Find(updates, x.0).None?
    ensures Distinct(base) ==> Distinct(Kept(base, updates))
  {
    hide Find;
    if base != [] {
      var n := |base| - 1;
      var k := Kept(base[..n], updates);
      KeptFields(base[..n], updates);
      assert base == base[..n] + [base[n]];
      if Distinct(base) {
        forall i | 0 <= i < |k| ensures k[i].0 != base[n].0 {
          assert k[i] in k && k[i] in base[..n];
        }
      }
    }
  }

  lemma {:induction false} CarriedFields(updates: Fields)
    ensures forall x :: x in Carried(updates) <==> x in updates && !x.1.Nothing?
    ensures Distinct(updates) ==> Distinct(Carried(updates))
  {
    if updates != [] {
      var n := |updates| - 1;
      var k := Carried(updates[..n]);
      CarriedFields(updates[..n]);
      assert updates == updates[..n] + [updates[n]];
      if Distinct(updates) {
        forall i | 0 <= i < |k| ensures k[i].0 != updates[n].0 {
          assert k[i] in k && k[i] in updates[..n];
        }
      }
    }
  }

  lemma MergedParts(base: Fields, updates: Fields)
    requires Sorted(base) && Sorted(updates) && Clean(base) && Clean(updates)
    ensures Distinct(Kept(base, updates) + Carried(updates)) && Clean(Kept(base, updates) + Carried(updates))
  {
    hide Find, Sorted;
    SortedIsDistinct(base);
    SortedIsDistinct(updates);
    KeptFields(base, updates);
    CarriedFields(updates);
    var k, c := Kept(base, updates), Carried(updates);
    var all: Fields := k + c;
    forall i | 0 <= i < |all| ensures ZeroFree(all[i].0) {
      var x := all[i];
      assert x in k || x in c;
      if x in base { CleanMember(base, x); } else { CleanMember(updates, x); }
    }
    forall i, j | 0 <= i < |k| && 0 <= j < |c| ensures k[i].0 != c[j].0 {
      assert k[i] in k && c[j] in c;
      FindMember(updates, c[j]);
    }
  }

  /** Merging is the right-biased union in which a null update deletes: that is what the lookup shows
      of it, name by name, and the result is again in name order. */
  lemma MergeIsUnion(base: Fields, updates: Fields, name: SmallString)
    requires Sorted(base) && Sorted(updates) && Clean(base) && Clean(updates)
    ensures Sorted(Merged(base, updates)) && Clean(Merged(base, updates))
    ensures Find(Merged(base, updates), name) ==
      match Find(updates, name)
      case Some(u) => if u.Nothing? then None else Some(u)
      case None => Find(base, name)
  {
    hide Find, Sorted, Clean, Kept, Carried, Sort;
    var parts := Kept(base, updates) + Carried(updates);
    MergedParts(base, updates);
    SortSorted(parts);
    var m := Merged(base, updates);
    SortedIsDistinct(m);
    SortedIsDistinct(base);
    SortedIsDistinct(updates);
    KeptFields(base, updates);
    CarriedFields(updates);
    FindIs(m, name);
    FindIs(base, name);
    FindIs(updates, name);
    match Find(updates, name) {
      case Some(u) =>
        FindMember(updates, (name, u));
        FindMember(m, (name, u));
        if u.Nothing? && Find(m, name).Some? {
          var x := (name, Find(m, name).value);
          FindMember(m, x);
          FindMember(updates, x);
        }
      case None =>
        if Find(base, name).Some? {
          FindMember(m, (name, Find(base, name).value));
        } else if Find(m, name).Some? {
          FindMember(updates, (name, Find(m, name).value));
          FindMember(base, (name, Find(m, name).value));
        }
    }
  }

  /** Two sorted structs that answer every lookup alike are the same struct. */
  lemma LookupDetermines(a: Fields, b: Fields)
    requires Sorted(a) && Sorted(b) && forall name :: Find(a, name) == Find(b, name)
    ensures a == b
  {
    hide Find, Sorted;
    SortedIsDistinct(a);
    SortedIsDistinct(b);
    forall x ensures x in a <==> x in b {
      FindMember(a, x);
      FindMember(b, x);
    }
    SortedUnique(a, b);
  }

  /** Applying the same updates again changes nothing, and no updates change nothing. */
  lemma MergeSettles(base: Fields, updates: Fields)
    requires Sorted(base) && Sorted(updates) && Clean(base) && Clean(updates)
    ensures Merged(Merged(base, updates), updates) == Merged(base, updates) && Merged(base, []) == base
  {
    hide Find, Sorted, Merged, Clean;
    var once, none := Merged(base, updates), [];
    assert Sorted<Value>([]) && Clean<Value>([]) by { NoFields(none); }
    forall name: SmallString
      ensures Find(Merged(once, updates), name) == Find(once, name) && Find(Merged(base, none), name) == Find(base, name)
      ensures Sorted(once) && Clean(once) && Sorted(Merged(once, updates)) && Sorted(Merged(base, none))
    {
      NoFields(none);
      MergeIsUnion(base, updates, name);
      MergeIsUnion(once, updates, name);
      MergeIsUnion(base, none, name);
      FindIs(none, name);
    }
    var any: SmallString := [];
    assert Find(once, any) == Find(once, any);
    LookupDetermines(Merged(once, updates), once);
    LookupDetermines(Merged(base, none), base);
  }

  lemma NoFields(fs: Fields)
    requires fs == []
    ensures Sorted(fs) && Clean(fs)
  {
  }

  // ---- the struct in place ------------------------------------------------------------------

  class Table {
    var numFields: nat
    var fields: array<Named<Value>>

    ghost predicate Valid()
      reads this
    {
      numFields <= fields.Length
    }

    ghost function Contents(): Fields
      requires Valid()
      reads this, fields
    {
      fields[..numFields]
    }

    /** Takes over an array of fields and puts them in name order. */
    constructor Sorted(num: nat, f: array<Named<Value>>)
      requires num <= f.Length
      modifies f
      ensures Valid() && fields == f && numFields == num
      ensures Contents() == Sort(old(f[..num])) && f[num..] == old(f[num..])
    {
      numFields := num;
      fields := f;
      new;
      SortKeepsAll(f[..num]);
      var ordered := IsSorted(f[..num]);
      if num > 1 && !ordered {
        Arrange(f, num);
      } else {
        if num <= 1 { ShortIsOrdered(f[..num]); }
        SortKeeps(f[..num]);
      }
    }

    /** The value under a name. */
    method Lookup(name: SmallString) returns (r: Option<Value>)
      requires Valid() && VmNames.Sorted(Contents())
      ensures r == Find(Contents(), name)
    {
      SortedIsOrdered(Contents());
      r := VmNames.Lookup(fields[..numFields], name);
    }

    /** Removes the field at an index by moving every later one back a place. */
    method Erase(at: nat)
      requires Valid() && at < numFields
      modifies this`numFields, fields
      ensures Valid() && fields == old(fields) && numFields == old(numFields) - 1
      ensures Contents() == old(Contents())[..at] + old(Contents())[at + 1..]
    {
      hide NameLess;
      ghost var was := Contents();
      var index := at + 1;
      while index < numFields
        invariant at + 1 <= index <= numFields == |was|
        invariant fields == old(fields) && numFields <= fields.Length
        invariant fields[..index - 1] == was[..at] + was[at + 1..index]
        invariant fields[index..numFields] == was[index..]
        modifies fields
      {
        Shifted(was, at, index, fields[..index - 1], fields[index..numFields]);
        fields[index - 1] := fields[index];
        index := index + 1;
      }
      numFields := numFields - 1;
    }
  }

  /** One field moved back a place. */
  lemma Shifted(was: Fields, at: nat, index: nat, low: Fields, high: Fields)
    requires at < index < |was| && low == was[..at] + was[at + 1..index] && high == was[index..]
    ensures high[0] == was[index] && low + [high[0]] == was[..at] + was[at + 1..index + 1] && high[1..] == was[index + 1..]
  {
  }

  lemma SortKeepsAll(fs: Fields)
    ensures |Sort(fs)| == |fs|
  {
    SortOrdered(fs);
  }

  lemma ShortIsOrdered(fs: Fields)
    requires |fs| <= 1
    ensures Ordered(fs)
  {
  }

  /** The first fields of an array, put in name order. */
  method Arrange(f: array<Named<Value>>, num: nat)
    requires num <= f.Length
    modifies f
    ensures f[..num] == Sort(old(f[..num])) && f[num..] == old(f[num..])
  {
    hide Sort;
    var sorted := Sort(f[..num]);
    SortKeepsAll(f[..num]);
    var i := 0;
    while i < num
      invariant 0 <= i <= num
      invariant forall k :: 0 <= k < i ==> f[k] == sorted[k]
      invariant forall k :: num <= k < f.Length ==> f[k] == old(f[k])
    {
      f[i] := sorted[i];
      i := i + 1;
    }
    assert f[..num] == sorted;
  }

  lemma KeptNext(fs: Fields, updates: Fields, i: nat)
    requires i < |fs|
    ensures Kept(fs[..i + 1], updates) == Kept(fs[..i], updates) + (if Find(updates, fs[i].0).None? then [fs[i]] else [])
  {
    assert fs[..i + 1][..i] == fs[..i];
  }

  lemma CarriedNext(fs: Fields, i: nat)
    requires i < |fs|
    ensures Carried(fs[..i + 1]) == Carried(fs[..i]) + (if fs[i].1.Nothing? then [] else [fs[i]])
  {
    assert fs[..i + 1][..i] == fs[..i];
  }

  /** The merge's first loop. */
  method KeepUnnamed(fields: array<Named<Value>>, base: Table, updates: Table) returns (numFields: nat)
    requires base.Valid() && updates.Valid() && Sorted(updates.Contents()) && base.numFields <= fields.Length
    requires fields != base.fields && fields != updates.fields
    modifies fields
    ensures numFields <= base.numFields && fields[..numFields] == Kept(base.Contents(), updates.Contents())
  {
    hide Find, VmNames.Sorted, Kept;
    numFields := 0;
    var i := 0;
    assert Kept(base.Contents()[..0], updates.Contents()) == [] by { KeptNone(base.Contents()[..0], updates.Contents()); }
    while i != base.numFields
      invariant 0 <= i <= base.numFields && numFields <= i
      invariant fields[..numFields] == Kept(base.Contents()[..i], updates.Contents())
      modifies fields
    {
      KeptNext(base.Contents(), updates.Contents(), i);
      var replacement := updates.Lookup(base.fields[i].0);
      if replacement == None {
        fields[numFields] := base.fields[i];
        numFields := numFields + 1;
      }
      i := i + 1;
    }
    assert base.Contents()[..i] == base.Contents();
  }

  lemma KeptNone(fs: Fields, updates: Fields)
    requires fs == []
    ensures Kept(fs, updates) == [] && Carried(fs) == []
  {
  }

  /** The merge's second loop. */
  method AddCarried(fields: array<Named<Value>>, start: nat, updates: Table) returns (numFields: nat)
    requires updates.Valid() && start + updates.numFields <= fields.Length && fields != updates.fields
    modifies fields
    ensures numFields <= start + updates.numFields
    ensures fields[..numFields] == old(fields[..start]) + Carried(updates.Contents())
  {
    hide Carried;
    numFields := start;
    var i := 0;
    KeptNone(updates.Contents()[..0], []);
    while i != updates.numFields
      invariant 0 <= i <= updates.numFields && start <= numFields <= start + i
      invariant fields[..numFields] == old(fields[..start]) + Carried(updates.Contents()[..i])
      modifies fields
    {
      CarriedNext(updates.Contents(), i);
      if !updates.fields[i].1.Nothing? {
        fields[numFields] := updates.fields[i];
        numFields := numFields + 1;
      }
      i := i + 1;
    }
    assert updates.Contents()[..i] == updates.Contents();
  }

  /** A new struct from the fields no update names and the updates that carry a value. */
  method Merge(base: Table, updates: Table) returns (m: Table)
    requires base.Valid() && updates.Valid() && Sorted(updates.Contents())
    ensures fresh(m) && fresh(m.fields) && m.Valid() && m.Contents() == Merged(base.Contents(), updates.Contents())
  {
    hide Find, VmNames.Sorted, Sort, Kept, Carried;
    var blank: Named<Value> := ([], Nothing);
    var fields := new Named<Value>[base.numFields + updates.numFields](_ => blank);
    var numFields := KeepUnnamed(fields, base, updates);
    numFields := AddCarried(fields, numFields, updates);
    m := new Table.Sorted(numFields, fields);
  }
}
