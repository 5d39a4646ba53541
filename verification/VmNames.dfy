/** Named fields kept in name order: comparison, sorting, the binary-search lookup, erasing and
    merging. */
module VmNames {
  import opened Wrappers
  import opened Codecs
  import opened WireFormat

  /** A named field. */
  type Named<T> = (SmallString, T)

  // ---- the order of names -------------------------------------------------------------------

  /** Names are compared as C strings: up to their first zero byte. */
  function CString(s: seq<Byte>): seq<Byte> {
    if s == [] || s[0] == 0 then [] else [s[0]] + CString(s[1..])
  }

  predicate ZeroFree(s: seq<Byte>) {
    forall i :: 0 <= i < |s| ==> s[i] != 0
  }

  predicate LexLess(a: seq<Byte>, b: seq<Byte>) {
    b != [] && (a == [] || a[0] < b[0] || (a[0] == b[0] && LexLess(a[1..], b[1..])))
  }

  predicate NameLess(a: SmallString, b: SmallString) {
    LexLess(CString(a), CString(b))
  }

  lemma {:induction false} CStringIs(s: seq<Byte>)
    requires ZeroFree(s)
    ensures CString(s) == s
  {
    if s != [] { CStringIs(s[1..]); }
  }

  lemma {:induction false} LexIrreflexive(a: seq<Byte>)
    ensures !LexLess(a, a)
  {
    if a != [] { LexIrreflexive(a[1..]); }
  }

  lemma {:induction false} LexTransitive(a: seq<Byte>, b: seq<Byte>, c: seq<Byte>)
    requires LexLess(a, b) && LexLess(b, c)
    ensures LexLess(a, c)
  {
    if a != [] && a[0] == b[0] && b[0] == c[0] { LexTransitive(a[1..], b[1..], c[1..]); }
  }

  lemma {:induction false} LexTotal(a: seq<Byte>, b: seq<Byte>)
    ensures LexLess(a, b) || LexLess(b, a) || a == b
  {
    if a != [] && b != [] && a[0] == b[0] {
      LexTotal(a[1..], b[1..]);
      assert a == [a[0]] + a[1..] && b == [b[0]] + b[1..];
    }
  }

  lemma NameLaws(a: SmallString, b: SmallString, c: SmallString)
    ensures !NameLess(a, a)
    ensures NameLess(a, b) && NameLess(b, c) ==> NameLess(a, c)
    ensures NameLess(a, b) && !NameLess(c, b) ==> NameLess(a, c)
    ensures ZeroFree(a) && ZeroFree(b) && a != b ==> NameLess(a, b) || NameLess(b, a)
  {
    var x, y, z := CString(a), CString(b), CString(c);
    LexIrreflexive(x);
    if LexLess(x, y) && LexLess(y, z) { LexTransitive(x, y, z); }
    LexTotal(z, y);
    if LexLess(x, y) && !LexLess(z, y) && LexLess(y, z) { LexTransitive(x, y, z); }
    LexTotal(x, y);
    if ZeroFree(a) && ZeroFree(b) { CStringIs(a); CStringIs(b); }
  }

  /** What comes before the first zero byte. */
  lemma {:induction false} CStringEnds(s: seq<Byte>, n: nat)
    requires n <= |s| && ZeroFree(s[..n]) && (n < |s| ==> s[n] == 0)
    ensures CString(s) == s[..n]
  {
    if n > 0 {
      assert s[0] == s[..n][0];
      assert s[1..][..n - 1] == s[..n][1..];
      CStringEnds(s[1..], n - 1);
      assert s[..n] == [s[0]] + s[..n][1..];
    }
  }

  /** They agree up to some place, and there the first one ends or has the smaller byte. */
  ghost predicate DiffersAt(x: seq<Byte>, y: seq<Byte>, k: nat) {
    k <= |x| && k < |y| && x[..k] == y[..k] && (k == |x| || x[k] < y[k])
  }

  lemma SameStart(x: seq<Byte>, y: seq<Byte>, k: nat)
    requires k > 0 && DiffersAt(x, y, k)
    ensures x != [] && y != [] && x[0] == y[0]
  {
    assert x[0] == x[..k][0] && y[0] == y[..k][0];
  }

  lemma {:induction false} LexOrder(x: seq<Byte>, y: seq<Byte>)
    ensures LexLess(x, y) <==> exists k: nat :: DiffersAt(x, y, k)
  {
    if x != [] && y != [] && x[0] == y[0] {
      var a, b := x[1..], y[1..];
      LexOrder(a, b);
      if LexLess(a, b) {
        var k: nat :| DiffersAt(a, b, k);
        assert x[..k + 1] == [x[0]] + a[..k] && y[..k + 1] == [y[0]] + b[..k];
        assert DiffersAt(x, y, k + 1);
      }
      if k: nat :| DiffersAt(x, y, k) {
        assert k > 0;
        assert x[..k][1..] == a[..k - 1] && y[..k][1..] == b[..k - 1];
        assert DiffersAt(a, b, k - 1);
      }
    } else if LexLess(x, y) {
      assert DiffersAt(x, y, 0);
    } else if k: nat :| DiffersAt(x, y, k) {
      if k > 0 { SameStart(x, y, k); }
    }
  }

  /** The order of two names: that of unsigned bytes at the first place where they differ, looking no further
      than a zero byte; the shorter one comes first where one begins the other. */
  lemma NameOrder(a: SmallString, b: SmallString, m: nat, n: nat)
    requires m <= |a| && ZeroFree(a[..m]) && (m < |a| ==> a[m] == 0)
    requires n <= |b| && ZeroFree(b[..n]) && (n < |b| ==> b[n] == 0)
    ensures NameLess(a, b) <==> exists k: nat :: DiffersAt(a[..m], b[..n], k)
  {
    CStringEnds(a, m);
    CStringEnds(b, n);
    LexOrder(a[..m], b[..n]);
  }

  // ---- sorted fields ------------------------------------------------------------------------

  /** Strictly increasing names. */
  predicate Sorted<T>(fs: seq<Named<T>>) {
    forall i, j :: 0 <= i < j < |fs| ==> NameLess(fs[i].0, fs[j].0)
  }

  /** No name comes before an earlier one. */
  predicate Ordered<T>(fs: seq<Named<T>>) {
    forall i, j :: 0 <= i < j < |fs| ==> !NameLess(fs[j].0, fs[i].0)
  }

  predicate Clean<T>(fs: seq<Named<T>>) {
    forall i :: 0 <= i < |fs| ==> ZeroFree(fs[i].0)
  }

  predicate Distinct<T>(fs: seq<Named<T>>) {
    forall i, j :: 0 <= i < j < |fs| ==> fs[i].0 != fs[j].0
  }

  function Insert<T>(x: Named<T>, fs: seq<Named<T>>): seq<Named<T>> {
    if fs == [] || !NameLess(fs[0].0, x.0) then [x] + fs else [fs[0]] + Insert(x, fs[1..])
  }

  /** The fields in name order. */
  function Sort<T>(fs: seq<Named<T>>): seq<Named<T>> {
    if fs == [] then [] else Insert(fs[0], Sort(fs[1..]))
  }

  lemma {:induction false} InsertOrdered<T>(x: Named<T>, fs: seq<Named<T>>)
    requires Ordered(fs)
    ensures Ordered(Insert(x, fs)) && multiset(Insert(x, fs)) == multiset{x} + multiset(fs)
    ensures |Insert(x, fs)| == |fs| + 1
  {
    hide NameLess;
    if fs == [] || !NameLess(fs[0].0, x.0) {
      if fs != [] {
        forall j | 0 <= j < |fs| ensures !NameLess(fs[j].0, x.0) {
          NameLaws(fs[j].0, x.0, fs[0].0);
        }
      }
    } else {
      var rest := Insert(x, fs[1..]);
      InsertOrdered(x, fs[1..]);
      assert fs == [fs[0]] + fs[1..];
      NameLaws(fs[0].0, x.0, fs[0].0);
      forall j | 0 <= j < |rest| ensures !NameLess(rest[j].0, fs[0].0) {
        NameLaws(x.0, fs[0].0, x.0);
        NameLaws(fs[0].0, x.0, x.0);
        assert rest[j] in multiset(rest);
        assert rest[j] == x || rest[j] in multiset(fs[1..]);
        if rest[j] == x { NameLaws(x.0, fs[0].0, x.0); NameLaws(fs[0].0, x.0, fs[0].0); }
      }
    }
  }

  lemma {:induction false} SortOrdered<T>(fs: seq<Named<T>>)
    ensures Ordered(Sort(fs)) && multiset(Sort(fs)) == multiset(fs) && |Sort(fs)| == |fs|
  {
    hide NameLess, Insert;
    if fs != [] {
      SortOrdered(fs[1..]);
      InsertOrdered(fs[0], Sort(fs[1..]));
      assert fs == [fs[0]] + fs[1..];
    }
  }

  /** Sorting a list already in order changes nothing. */
  lemma {:induction false} SortKeeps<T>(fs: seq<Named<T>>)
    requires Ordered(fs)
    ensures Sort(fs) == fs
  {
    hide NameLess;
    if fs != [] {
      SortKeeps(fs[1..]);
      assert fs == [fs[0]] + fs[1..];
    }
  }

  lemma SortedIsOrdered<T>(fs: seq<Named<T>>)
    requires Sorted(fs)
    ensures Ordered(fs)
  {
    hide NameLess;
    forall i, j | 0 <= i < j < |fs| ensures !NameLess(fs[j].0, fs[i].0) {
      NameLaws(fs[i].0, fs[j].0, fs[i].0);
    }
  }

  lemma OrderedIsSorted<T>(fs: seq<Named<T>>)
    requires Ordered(fs) && Distinct(fs) && Clean(fs)
    ensures Sorted(fs)
  {
    hide NameLess;
    forall i, j | 0 <= i < j < |fs| ensures NameLess(fs[i].0, fs[j].0) {
      NameLaws(fs[i].0, fs[j].0, fs[i].0);
    }
  }

  lemma SortedIsDistinct<T>(fs: seq<Named<T>>)
    requires Sorted(fs)
    ensures Distinct(fs)
  {
    hide NameLess;
    forall i, j | 0 <= i < j < |fs| ensures fs[i].0 != fs[j].0 {
      NameLaws(fs[i].0, fs[j].0, fs[i].0);
    }
  }

  /** The same fields, in whatever arrangement. */
  ghost predicate SameFields<T(!new)>(a: seq<Named<T>>, b: seq<Named<T>>) {
    forall x :: x in a <==> x in b
  }

  /** A sorted list is determined by its fields. */
  lemma {:induction false} SortedUnique<T(!new)>(a: seq<Named<T>>, b: seq<Named<T>>)
    requires Sorted(a) && Sorted(b) && SameFields(a, b)
    ensures a == b
  {
    hide NameLess;
    assert (a != [] ==> a[0] in a) && (b != [] ==> b[0] in b);
    if a != [] {
      assert a[0] in b && b[0] in a;
      NameLaws(a[0].0, b[0].0, a[0].0);
      NameLaws(b[0].0, a[0].0, b[0].0);
      assert a[0] == b[0];
      assert a == [a[0]] + a[1..] && b == [b[0]] + b[1..];
      SortedTail(a);
      SortedTail(b);
      SortedUnique(a[1..], b[1..]);
    }
  }

  lemma SortedTail<T(!new)>(a: seq<Named<T>>)
    requires Sorted(a) && a != []
    ensures forall x :: x in a[1..] <==> x in a && x != a[0]
  {
    hide NameLess;
    assert a == [a[0]] + a[1..];
    forall x | x in a[1..] ensures x != a[0] {
      var i: nat :| i < |a| - 1 && a[1..][i] == x;
      assert NameLess(a[0].0, a[i + 1].0);
      NameLaws(a[0].0, a[0].0, a[0].0);
    }
  }

  lemma InsertFields<T(!new)>(x: Named<T>, fs: seq<Named<T>>)
    ensures forall y :: y in Insert(x, fs) <==> y == x || y in fs
  {
    if fs != [] && NameLess(fs[0].0, x.0) {
      InsertFields(x, fs[1..]);
      assert fs == [fs[0]] + fs[1..];
    }
  }

  lemma {:induction false} SortFields<T(!new)>(fs: seq<Named<T>>)
    ensures SameFields(Sort(fs), fs)
  {
    if fs != [] {
      SortFields(fs[1..]);
      InsertFields(fs[0], Sort(fs[1..]));
      assert fs == [fs[0]] + fs[1..];
    }
  }

  /** Distinct names stay distinct: a list as long as its fields' arrangement repeats none of them. */
  lemma {:induction false} InsertDistinct<T(!new)>(x: Named<T>, fs: seq<Named<T>>)
    requires Distinct(fs) && forall i :: 0 <= i < |fs| ==> fs[i].0 != x.0
    ensures Distinct(Insert(x, fs))
  {
    hide NameLess;
    if fs != [] && NameLess(fs[0].0, x.0) {
      var rest := Insert(x, fs[1..]);
      InsertDistinct(x, fs[1..]);
      InsertFields(x, fs[1..]);
      forall j | 0 <= j < |rest| ensures rest[j].0 != fs[0].0 {
        assert rest[j] in rest;
      }
    }
  }

  lemma {:induction false} SortDistinct<T(!new)>(fs: seq<Named<T>>)
    requires Distinct(fs)
    ensures Distinct(Sort(fs))
  {
    if fs != [] {
      SortDistinct(fs[1..]);
      SortFields(fs[1..]);
      var rest := Sort(fs[1..]);
      forall i | 0 <= i < |rest| ensures rest[i].0 != fs[0].0 {
        assert rest[i] in rest && rest[i] in fs[1..];
      }
      InsertDistinct(fs[0], rest);
    }
  }

  lemma SortClean<T(!new)>(fs: seq<Named<T>>)
    requires Clean(fs)
    ensures Clean(Sort(fs))
  {
    SortFields(fs);
    forall i | 0 <= i < |Sort(fs)| ensures ZeroFree(Sort(fs)[i].0) {
      assert Sort(fs)[i] in Sort(fs) && Sort(fs)[i] in fs;
    }
  }

  /** Clean, distinct names sort strictly, and to the one sorted list of those fields. */
  lemma SortSorted<T(!new)>(fs: seq<Named<T>>)
    requires Clean(fs) && Distinct(fs)
    ensures Sorted(Sort(fs)) && Clean(Sort(fs)) && SameFields(Sort(fs), fs)
    ensures forall b :: Sorted(b) && SameFields(fs, b) ==> Sort(fs) == b
  {
    hide Sort, Sorted, Ordered, Distinct, Clean;
    SortOrdered(fs);
    SortDistinct(fs);
    SortClean(fs);
    SortFields(fs);
    OrderedIsSorted(Sort(fs));
    forall b | Sorted(b) && SameFields(fs, b) ensures Sort(fs) == b {
      SortedUnique(Sort(fs), b);
    }
  }

  /** Comparing neighbours decides the order of the whole list. */
  method IsSorted<T>(fs: seq<Named<T>>) returns (r: bool)
    ensures r <==> Ordered(fs)
  {
    hide NameLess;
    var i := 1;
    while i < |fs|
      invariant |fs| > 0 ==> 1 <= i <= |fs|
      invariant i <= |fs| ==> Ordered(fs[..i])
    {
      if NameLess(fs[i].0, fs[i - 1].0) {
        return false;
      }
      OrderedNext(fs, i);
      i := i + 1;
    }
    if fs != [] { assert fs[..i] == fs; }
    return true;
  }

  lemma OrderedNext<T>(fs: seq<Named<T>>, i: nat)
    requires 0 < i < |fs| && Ordered(fs[..i]) && !NameLess(fs[i].0, fs[i - 1].0)
    ensures Ordered(fs[..i + 1])
  {
    hide NameLess;
    var p := fs[..i];
    forall k | 0 <= k < i ensures !NameLess(fs[i].0, fs[k].0) {
      if k < i - 1 {
        assert !NameLess(p[i - 1].0, p[k].0);
        NameLaws(fs[i].0, fs[k].0, fs[i - 1].0);
      }
    }
    var q := fs[..i + 1];
    forall a, b | 0 <= a < b < |q| ensures !NameLess(q[b].0, q[a].0) {
      if b < i { assert !NameLess(p[b].0, p[a].0); }
    }
  }

  // ---- lookup -------------------------------------------------------------------------------

  /** The value under a name: the first field that bears it. */
  function Find<T>(fs: seq<Named<T>>, name: SmallString): Option<T> {
    if fs == [] then None
    else if fs[0].0 == name then Some(fs[0].1)
    else Find(fs[1..], name)
  }

  lemma {:induction false} FindIs<T>(fs: seq<Named<T>>, name: SmallString)
    ensures Find(fs, name).Some? ==> (name, Find(fs, name).value) in fs
    ensures Find(fs, name).None? ==> forall i :: 0 <= i < |fs| ==> fs[i].0 != name
  {
    if fs != [] {
      FindIs(fs[1..], name);
      assert fs == [fs[0]] + fs[1..];
      assert fs[0].0 == name ==> fs[0] == (name, fs[0].1);
    }
  }

  lemma {:induction false} FindAt<T>(fs: seq<Named<T>>, i: nat)
    requires Distinct(fs) && i < |fs|
    ensures Find(fs, fs[i].0) == Some(fs[i].1)
  {
    if i > 0 {
      assert fs[1..][i - 1] == fs[i];
      FindAt(fs[1..], i - 1);
    }
  }

  /** A name is in a distinct list with one value only. */
  lemma FindMember<T(!new)>(fs: seq<Named<T>>, x: Named<T>)
    requires Distinct(fs)
    ensures x in fs <==> Find(fs, x.0) == Some(x.1)
  {
    hide Find;
    FindIs(fs, x.0);
    if x in fs {
      var i: nat :| i < |fs| && fs[i] == x;
      FindAt(fs, i);
    }
  }

  lemma CleanMember<T>(fs: seq<Named<T>>, x: Named<T>)
    requires Clean(fs) && x in fs
    ensures ZeroFree(x.0)
  {
  }

  /** The first field whose name does not come before the one sought, by halving the range. */
  method LowerBound<T>(fs: seq<Named<T>>, name: SmallString) returns (first: nat)
    requires Ordered(fs)
    ensures first <= |fs|
    ensures forall i :: 0 <= i < first ==> NameLess(fs[i].0, name)
    ensures forall i :: first <= i < |fs| ==> !NameLess(fs[i].0, name)
  {
    hide NameLess;
    first := 0;
    var count := |fs|;
    while count > 0
      invariant 0 <= first <= first + count <= |fs|
      invariant forall i :: 0 <= i < first ==> NameLess(fs[i].0, name)
      invariant forall i :: first + count <= i < |fs| ==> !NameLess(fs[i].0, name)
    {
      var step := count / 2;
      var mid := first + step;
      if NameLess(fs[mid].0, name) {
        forall i | 0 <= i <= mid ensures NameLess(fs[i].0, name) {
          BeforeToo(fs[i].0, fs[mid].0, name);
          NameLaws(fs[i].0, fs[i].0, fs[i].0);
        }
        first := mid + 1;
        count := count - (step + 1);
      } else {
        forall i | mid <= i < |fs| ensures !NameLess(fs[i].0, name) {
          BeforeToo(fs[mid].0, fs[i].0, name);
        }
        count := step;
      }
    }
  }

  lemma BeforeToo(a: SmallString, b: SmallString, name: SmallString)
    ensures !NameLess(b, a) && NameLess(b, name) ==> NameLess(a, name)
  {
    LexTotal(CString(a), CString(b));
    NameLaws(a, b, name);
  }

  /** The first field not before the name, if it bears that name. */
  function AtBound<T>(fs: seq<Named<T>>, name: SmallString): Option<T> {
    if fs == [] then None
    else if NameLess(fs[0].0, name) then AtBound(fs[1..], name)
    else if fs[0].0 == name then Some(fs[0].1)
    else None
  }

  lemma {:induction false} AtBoundIs<T>(fs: seq<Named<T>>, name: SmallString, first: nat)
    requires first <= |fs| && forall i :: 0 <= i < first ==> NameLess(fs[i].0, name)
    requires first < |fs| ==> !NameLess(fs[first].0, name)
    ensures AtBound(fs, name) == if first < |fs| && fs[first].0 == name then Some(fs[first].1) else None
  {
    hide NameLess;
    if first > 0 { AtBoundIs(fs[1..], name, first - 1); }
  }

  /** Among names without zero bytes, in order, it is there exactly when some field bears the name; the
      order may repeat names. */
  lemma BoundFinds<T>(fs: seq<Named<T>>, name: SmallString)
    requires Ordered(fs) && Clean(fs) && ZeroFree(name)
    ensures AtBound(fs, name).Some? <==> exists i :: 0 <= i < |fs| && fs[i].0 == name
    ensures AtBound(fs, name).Some? ==> (name, AtBound(fs, name).value) in fs
  {
    hide NameLess, AtBound;
    var first: nat := 0;
    while first < |fs| && NameLess(fs[first].0, name)
      invariant first <= |fs| && forall i :: 0 <= i < first ==> NameLess(fs[i].0, name)
    {
      first := first + 1;
    }
    AtBoundIs(fs, name, first);
    NameLaws(name, name, name);
    if first < |fs| && fs[first].0 == name {
      assert fs[first] == (name, fs[first].1);
    } else {
      forall i | 0 <= i < |fs| ensures fs[i].0 != name {
        if i > first {
          NameLaws(fs[first].0, name, name);
          BeforeToo(fs[first].0, fs[i].0, name);
        }
      }
    }
  }

  /** The binary-search lookup answers the field at the bound; where names are strictly sorted, that is
      the field of that name, wherever it is. */
  method Lookup<T>(fs: seq<Named<T>>, name: SmallString) returns (r: Option<T>)
    requires Ordered(fs)
    ensures r == AtBound(fs, name) && (Sorted(fs) ==> r == Find(fs, name))
  {
    hide NameLess, Find, AtBound;
    var lower := LowerBound(fs, name);
    AtBoundIs(fs, name, lower);
    if lower != |fs| && fs[lower].0 == name {
      if Sorted(fs) {
        SortedIsDistinct(fs);
        FindAt(fs, lower);
      }
      r := Some(fs[lower].1);
    } else {
      if Sorted(fs) { LookupMisses(fs, name, lower); }
      r := None;
    }
  }

  lemma LookupMisses<T>(fs: seq<Named<T>>, name: SmallString, lower: nat)
    requires Sorted(fs) && lower <= |fs|
    requires forall i :: 0 <= i < lower ==> NameLess(fs[i].0, name)
    requires forall i :: lower <= i < |fs| ==> !NameLess(fs[i].0, name)
    requires lower == |fs| || fs[lower].0 != name
    ensures Find(fs, name) == None
  {
    hide NameLess;
    NameLaws(name, name, name);
    forall i | 0 <= i < |fs| ensures fs[i].0 != name {
      if i > lower { NameLaws(fs[lower].0, fs[i].0, name); }
    }
    FindIs(fs, name);
  }
}
