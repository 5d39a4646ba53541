/** Codecs of recursive values: the parts they are put together from, what makes the whole faithful,
    and how a codec bounded in nesting grows with its bound. */
module FaithfulCodecs {
  import opened Wrappers
  import opened Words64
  import opened Codecs
  import opened WireFormat

  // ---- the parts of the wire format, faithfully ---------------------------------------------

  lemma VariantFaithful<A(!new), B(!new)>(c: Codec<A>, to: A -> B, back: B -> Option<A>)
    requires Faithful(c)
    requires forall v: B :: back(v).Some? && c.fits(back(v).value) ==> to(back(v).value) == v
    ensures Faithful(Variant(c, to, back))
  {
    var m := Variant(c, to, back);
    forall v: B, rest: seq<Byte> | m.fits(v) ensures m.dec(m.enc(v) + rest) == Some((v, |m.enc(v)|)) {
      FaithfulReadsBack(c, back(v).value, rest);
    }
    forall s: seq<Byte>, t: seq<Byte> | m.dec(s).Some? ensures m.dec(s + t) == m.dec(s) {
      FaithfulTakes(c, s, t);
    }
    forall s: seq<Byte> | m.dec(s).Some? ensures m.least <= m.dec(s).value.1 <= |s| {
      FaithfulTakes(c, s, []);
    }
  }

  lemma MappedFaithful<A(!new), B(!new)>(c: Codec<A>, to: A -> B, back: B -> A, fits: B -> bool)
    requires Faithful(c)
    requires forall v: B :: fits(v) ==> c.fits(back(v)) && to(back(v)) == v
    ensures Faithful(Mapped(c, to, back, fits))
  {
    var m := Mapped(c, to, back, fits);
    forall v: B, rest: seq<Byte> | m.fits(v) ensures m.dec(m.enc(v) + rest) == Some((v, |m.enc(v)|)) {
      FaithfulReadsBack(c, back(v), rest);
    }
    forall s: seq<Byte>, t: seq<Byte> | m.dec(s).Some? ensures m.dec(s + t) == m.dec(s) {
      FaithfulTakes(c, s, t);
    }
    forall s: seq<Byte> | m.dec(s).Some? ensures m.least <= m.dec(s).value.1 <= |s| {
      FaithfulTakes(c, s, []);
    }
  }

  lemma PairReadsBack<A(!new), B(!new)>(a: Codec<A>, b: Codec<B>, v: (A, B), rest: seq<Byte>)
    requires Faithful(a) && Faithful(b) && a.fits(v.0) && b.fits(v.1)
    ensures Pair(a, b).dec(a.enc(v.0) + b.enc(v.1) + rest) == Some((v, |a.enc(v.0) + b.enc(v.1)|))
  {
    var x, y := a.enc(v.0), b.enc(v.1);
    assert x + y + rest == x + (y + rest);
    assert (x + (y + rest))[|x|..] == y + rest;
    PairDec(a, b, x + (y + rest));
    FaithfulReadsBack(a, v.0, y + rest);
    FaithfulReadsBack(b, v.1, rest);
  }

  lemma PairTakes<A(!new), B(!new)>(a: Codec<A>, b: Codec<B>, s: seq<Byte>, t: seq<Byte>)
    requires Faithful(a) && Faithful(b) && Pair(a, b).dec(s).Some?
    ensures Pair(a, b).dec(s + t) == Pair(a, b).dec(s) && a.least + b.least <= Pair(a, b).dec(s).value.1 <= |s|
  {
    hide Faithful, Pair;
    PairDec(a, b, s);
    PairDec(a, b, s + t);
    var n := a.dec(s).value.1;
    FaithfulTakes(a, s, t);
    FaithfulTakes(b, s[n..], t);
    assert (s + t)[n..] == s[n..] + t;
  }

  lemma PairFaithful<A(!new), B(!new)>(a: Codec<A>, b: Codec<B>)
    requires Faithful(a) && Faithful(b)
    ensures Faithful(Pair(a, b)) && Pair(a, b).least == a.least + b.least
  {
    hide Pair;
    PairShape(a, b);
    var p := Pair(a, b);
    forall v: (A, B), rest: seq<Byte> | p.fits(v) ensures p.dec(p.enc(v) + rest) == Some((v, |p.enc(v)|)) {
      PairReadsBack(a, b, v, rest);
    }
    forall s: seq<Byte>, t: seq<Byte> | p.dec(s).Some? ensures p.dec(s + t) == p.dec(s) {
      PairTakes(a, b, s, t);
    }
    forall s: seq<Byte> | p.dec(s).Some? ensures p.least <= p.dec(s).value.1 <= |s| {
      PairTakes(a, b, s, []);
    }
  }

  // ---- a row of parts, each with a layout of its own ----------------------------------------

  function EncRow<T>(cs: seq<Codec<T>>, vs: seq<T>): seq<Byte> {
    if cs == [] || vs == [] then [] else cs[0].enc(vs[0]) + EncRow(cs[1..], vs[1..])
  }

  function DecRow<T>(cs: seq<Codec<T>>, s: seq<Byte>): Answer<seq<T>> {
    if cs == [] then Some(([], 0))
    else
      match cs[0].dec(s)
      case None => None
      case Some((v, n)) =>
        if n > |s| then None
        else match DecRow(cs[1..], s[n..]) { case None => None case Some((vs, m)) => Some(([v] + vs, n + m)) }
  }

  ghost predicate RowFits<T>(cs: seq<Codec<T>>, vs: seq<T>) {
    |vs| == |cs| && forall i :: 0 <= i < |cs| ==> cs[i].fits(vs[i])
  }

  function Row<T>(cs: seq<Codec<T>>): Codec<seq<T>> {
    Codec((vs: seq<T>) => EncRow(cs, vs), (s: seq<Byte>) => DecRow(cs, s), (vs: seq<T>) => RowFits(cs, vs), if cs == [] then 0 else 1)
  }

  ghost predicate AllFaithful<T(!new)>(cs: seq<Codec<T>>) {
    forall i :: 0 <= i < |cs| ==> Faithful(cs[i]) && cs[i].least >= 1
  }

  lemma {:induction false} RowReadsBack<T(!new)>(cs: seq<Codec<T>>, vs: seq<T>, rest: seq<Byte>)
    requires AllFaithful(cs) && RowFits(cs, vs)
    ensures DecRow(cs, EncRow(cs, vs) + rest) == Some((vs, |EncRow(cs, vs)|))
  {
    hide Faithful;
    if cs != [] {
      var x, y := cs[0].enc(vs[0]), EncRow(cs[1..], vs[1..]);
      FaithfulReadsBack(cs[0], vs[0], y + rest);
      RowReadsBack(cs[1..], vs[1..], rest);
      assert x + y + rest == x + (y + rest);
      assert (x + (y + rest))[|x|..] == y + rest;
      assert vs == [vs[0]] + vs[1..];
    }
  }

  lemma {:induction false} RowTakes<T(!new)>(cs: seq<Codec<T>>, s: seq<Byte>, t: seq<Byte>)
    requires AllFaithful(cs) && DecRow(cs, s).Some?
    ensures DecRow(cs, s + t) == DecRow(cs, s) && Row(cs).least <= DecRow(cs, s).value.1 <= |s|
    ensures |DecRow(cs, s).value.0| == |cs|
  {
    hide Faithful;
    if cs != [] {
      var n := cs[0].dec(s).value.1;
      FaithfulTakes(cs[0], s, t);
      assert (s + t)[n..] == s[n..] + t;
      RowTakes(cs[1..], s[n..], t);
    }
  }

  lemma RowFaithful<T(!new)>(cs: seq<Codec<T>>)
    requires AllFaithful(cs)
    ensures Faithful(Row(cs))
  {
    hide EncRow, DecRow, AllFaithful, RowFits;
    var r := Row(cs);
    forall v: seq<T>, rest: seq<Byte> | r.fits(v) ensures r.dec(r.enc(v) + rest) == Some((v, |r.enc(v)|)) {
      RowReadsBack(cs, v, rest);
    }
    forall s: seq<Byte>, t: seq<Byte> | r.dec(s).Some? ensures r.dec(s + t) == r.dec(s) {
      RowTakes(cs, s, t);
    }
    forall s: seq<Byte> | r.dec(s).Some? ensures r.least <= r.dec(s).value.1 <= |s| {
      RowTakes(cs, s, []);
    }
  }

  // ---- a count that is not checked against the bytes that remain ----------------------------

  function ListedDec<T>(c: Codec<T>, s: seq<Byte>): Answer<seq<T>> {
    if |s| < 4 || Number(s[..4]) >= 0x8000_0000 then None
    else
      match DecAll(c, Number(s[..4]), s[4..])
      case None => None
      case Some((items, k)) => Some((items, 4 + k))
  }

  function Listed<T>(c: Codec<T>): Codec<seq<T>> {
    Codec((v: seq<T>) => LittleEndian(|v|, 4) + EncAll(c, v), (s: seq<Byte>) => ListedDec(c, s),
          (v: seq<T>) => |v| < 0x8000_0000 && forall i :: 0 <= i < |v| ==> c.fits(v[i]), 4)
  }

  lemma ListedFaithful<T(!new)>(c: Codec<T>)
    requires Faithful(c)
    ensures Faithful(Listed(c))
  {
    hide ListedDec, EncAll, LittleEndian;
    var l := Listed(c);
    forall v: seq<T>, rest: seq<Byte> | l.fits(v) ensures l.dec(l.enc(v) + rest) == Some((v, |l.enc(v)|)) {
      ListedReadsBack(c, v, rest);
    }
    forall s: seq<Byte>, t: seq<Byte> | l.dec(s).Some? ensures l.dec(s + t) == l.dec(s) {
      ListedTakes(c, s, t);
    }
    forall s: seq<Byte> | l.dec(s).Some? ensures l.least <= l.dec(s).value.1 <= |s| {
      ListedTakes(c, s, []);
    }
  }

  lemma ListedReadsBack<T(!new)>(c: Codec<T>, v: seq<T>, rest: seq<Byte>)
    requires Faithful(c) && Listed(c).fits(v)
    ensures ListedDec(c, LittleEndian(|v|, 4) + EncAll(c, v) + rest) == Some((v, 4 + |EncAll(c, v)|))
  {
    hide Faithful, DecAll, EncAll, LittleEndian, Product, Number;
    var body := EncAll(c, v) + rest;
    AllReadBack(c, v, rest);
    BytePowers();
    WrittenNumber(|v|, 4);
    assert LittleEndian(|v|, 4) + EncAll(c, v) + rest == LittleEndian(|v|, 4) + body;
    assert (LittleEndian(|v|, 4) + body)[4..] == body && (LittleEndian(|v|, 4) + body)[..4] == LittleEndian(|v|, 4);
  }

  lemma ListedTakes<T(!new)>(c: Codec<T>, s: seq<Byte>, t: seq<Byte>)
    requires Faithful(c) && ListedDec(c, s).Some?
    ensures ListedDec(c, s + t) == ListedDec(c, s) && 4 <= ListedDec(c, s).value.1 <= |s|
  {
    hide Faithful, DecAll, Product, Number;
    assert (s + t)[4..] == s[4..] + t && (s + t)[..4] == s[..4];
    AllExtend(c, Number(s[..4]), s[4..], t);
    AllBounded(c, Number(s[..4]), s[4..]);
  }

  // ---- a type byte, then the layout it names ------------------------------------------------

  function TaggedDec<T>(body: Byte -> Codec<T>, s: seq<Byte>): Answer<T> {
    if s == [] then None
    else match body(s[0]).dec(s[1..]) { case None => None case Some((v, n)) => Some((v, 1 + n)) }
  }

  function Tagged<T>(tagOf: T -> Byte, body: Byte -> Codec<T>): Codec<T> {
    Codec((v: T) => [tagOf(v)] + body(tagOf(v)).enc(v), (s: seq<Byte>) => TaggedDec(body, s),
          (v: T) => body(tagOf(v)).fits(v), 1)
  }

  lemma TaggedFaithful<T(!new)>(tagOf: T -> Byte, body: Byte -> Codec<T>)
    requires forall t: Byte :: Faithful(body(t))
    ensures Faithful(Tagged(tagOf, body))
  {
    var c := Tagged(tagOf, body);
    forall v: T, rest: seq<Byte> | c.fits(v) ensures c.dec(c.enc(v) + rest) == Some((v, |c.enc(v)|)) {
      var b := body(tagOf(v));
      FaithfulReadsBack(b, v, rest);
      assert (c.enc(v) + rest)[1..] == b.enc(v) + rest;
    }
    forall s: seq<Byte>, t: seq<Byte> | c.dec(s).Some? ensures c.dec(s + t) == c.dec(s) {
      FaithfulTakes(body(s[0]), s[1..], t);
      assert (s + t)[1..] == s[1..] + t;
    }
    forall s: seq<Byte> | c.dec(s).Some? ensures c.least <= c.dec(s).value.1 <= |s| {
      FaithfulTakes(body(s[0]), s[1..], []);
    }
  }

  /** No layout at all, where one of a known least size would stand. */
  function Bottom<T>(least: nat): Codec<T> {
    Codec((v: T) => [], (s: seq<Byte>) => None, (v: T) => false, least)
  }

  lemma BottomFaithful<T(!new)>(least: nat)
    ensures Faithful(Bottom<T>(least))
  {
  }

  // ---- growing with the bound on nesting ----------------------------------------------------

  /** d writes what c writes, and reads any input of up to n bytes as c does. */
  ghost predicate Grows<T(!new)>(c: Codec<T>, d: Codec<T>, n: int) {
    && (forall v :: c.fits(v) ==> d.fits(v) && d.enc(v) == c.enc(v))
    && (forall s :: |s| <= n ==> d.dec(s) == c.dec(s))
  }

  lemma GrowsLess<T(!new)>(c: Codec<T>, d: Codec<T>, n: int, m: int)
    requires Grows(c, d, n) && m <= n
    ensures Grows(c, d, m)
  {
  }

  lemma BottomGrows<T(!new)>(least: nat, d: Codec<T>)
    ensures Grows(Bottom(least), d, -1)
  {
  }

  lemma MappedGrows<A(!new), B(!new)>(c: Codec<A>, d: Codec<A>, to: A -> B, back: B -> A, fits: B -> bool, wider: B -> bool, n: int)
    requires Grows(c, d, n) && forall v: B :: fits(v) ==> c.fits(back(v)) && wider(v)
    ensures Grows(Mapped(c, to, back, fits), Mapped(d, to, back, wider), n)
  {
  }

  lemma VariantGrows<A(!new), B(!new)>(c: Codec<A>, d: Codec<A>, to: A -> B, back: B -> Option<A>, n: int)
    requires Grows(c, d, n)
    ensures Grows(Variant(c, to, back), Variant(d, to, back), n)
  {
  }

  lemma PairGrows<A(!new), B(!new)>(a: Codec<A>, c: Codec<A>, b: Codec<B>, d: Codec<B>, n: int)
    requires Grows(a, c, n) && Grows(b, d, n)
    ensures Grows(Pair(a, b), Pair(c, d), n)
  {
    hide Pair;
    PairShape(a, b);
    PairShape(c, d);
    forall s: seq<Byte> | |s| <= n ensures Pair(c, d).dec(s) == Pair(a, b).dec(s) {
      PairDec(a, b, s);
      PairDec(c, d, s);
    }
  }

  lemma {:induction false} EncAllGrows<T(!new)>(c: Codec<T>, d: Codec<T>, n: int, items: seq<T>)
    requires Grows(c, d, n) && forall i :: 0 <= i < |items| ==> c.fits(items[i])
    ensures EncAll(d, items) == EncAll(c, items)
  {
    if items != [] { EncAllGrows(c, d, n, items[..|items| - 1]); }
  }

  lemma {:induction false} DecAllGrows<T(!new)>(c: Codec<T>, d: Codec<T>, n: int, count: nat, s: seq<Byte>)
    requires Grows(c, d, n) && |s| <= n
    ensures DecAll(d, count, s) == DecAll(c, count, s)
  {
    if count > 0 { DecAllGrows(c, d, n, count - 1, s); }
  }

  lemma ArrayGrows<T(!new)>(c: Codec<T>, d: Codec<T>, k: nat, n: int)
    requires Grows(c, d, n)
    ensures Grows(ArrayOf(c, k), ArrayOf(d, k), n)
  {
    hide EncAll, DecAll, LengthDec, LittleEndian;
    forall v | ArrayOf(c, k).fits(v) ensures ArrayOf(d, k).fits(v) && ArrayOf(d, k).enc(v) == ArrayOf(c, k).enc(v) {
      EncAllGrows(c, d, n, v);
    }
    forall s: seq<Byte> | |s| <= n ensures ArrayOf(d, k).dec(s) == ArrayOf(c, k).dec(s) {
      if |s| >= 4 && LengthDec(s, k).Some? { DecAllGrows(c, d, n, LengthDec(s, k).value.0, s[4..]); }
    }
  }

  lemma ListedGrows<T(!new)>(c: Codec<T>, d: Codec<T>, n: int)
    requires Grows(c, d, n)
    ensures Grows(Listed(c), Listed(d), n)
  {
    hide EncAll, DecAll, LittleEndian, Number;
    forall v | Listed(c).fits(v) ensures Listed(d).fits(v) && Listed(d).enc(v) == Listed(c).enc(v) {
      EncAllGrows(c, d, n, v);
    }
    forall s: seq<Byte> | |s| <= n ensures Listed(d).dec(s) == Listed(c).dec(s) {
      if |s| >= 4 { DecAllGrows(c, d, n, Number(s[..4]), s[4..]); }
    }
  }

  ghost predicate AllGrow<T(!new)>(cs: seq<Codec<T>>, ds: seq<Codec<T>>, n: int) {
    |cs| == |ds| && forall i :: 0 <= i < |cs| ==> Grows(cs[i], ds[i], n)
  }

  lemma {:induction false} EncRowGrows<T(!new)>(cs: seq<Codec<T>>, ds: seq<Codec<T>>, n: int, vs: seq<T>)
    requires AllGrow(cs, ds, n) && RowFits(cs, vs)
    ensures EncRow(ds, vs) == EncRow(cs, vs)
  {
    if cs != [] {
      assert Grows(cs[0], ds[0], n) && cs[0].fits(vs[0]);
      EncRowGrows(cs[1..], ds[1..], n, vs[1..]);
    }
  }

  lemma {:induction false} DecRowGrows<T(!new)>(cs: seq<Codec<T>>, ds: seq<Codec<T>>, n: int, s: seq<Byte>)
    requires AllGrow(cs, ds, n) && |s| <= n
    ensures DecRow(ds, s) == DecRow(cs, s)
  {
    if cs != [] {
      assert Grows(cs[0], ds[0], n);
      if cs[0].dec(s).Some? && cs[0].dec(s).value.1 <= |s| {
        DecRowGrows(cs[1..], ds[1..], n, s[cs[0].dec(s).value.1..]);
      }
    }
  }

  lemma RowGrows<T(!new)>(cs: seq<Codec<T>>, ds: seq<Codec<T>>, n: int)
    requires AllGrow(cs, ds, n)
    ensures Grows(Row(cs), Row(ds), n)
  {
    hide EncRow, DecRow;
    forall vs | Row(cs).fits(vs) ensures Row(ds).fits(vs) && Row(ds).enc(vs) == Row(cs).enc(vs) {
      EncRowGrows(cs, ds, n, vs);
      forall i | 0 <= i < |ds| ensures ds[i].fits(vs[i]) { assert Grows(cs[i], ds[i], n) && cs[i].fits(vs[i]); }
    }
    forall s: seq<Byte> | |s| <= n ensures Row(ds).dec(s) == Row(cs).dec(s) {
      DecRowGrows(cs, ds, n, s);
    }
  }

  lemma TaggedGrows<T(!new)>(tagOf: T -> Byte, body: Byte -> Codec<T>, wider: Byte -> Codec<T>, n: int)
    requires forall t: Byte :: Grows(body(t), wider(t), n - 1)
    ensures Grows(Tagged(tagOf, body), Tagged(tagOf, wider), n)
  {
    forall s: seq<Byte> | |s| <= n ensures TaggedDec(wider, s) == TaggedDec(body, s) {
      if s != [] { assert Grows(body(s[0]), wider(s[0]), n - 1); }
    }
    forall v | body(tagOf(v)).fits(v) ensures wider(tagOf(v)).fits(v) && wider(tagOf(v)).enc(v) == body(tagOf(v)).enc(v) {
      assert Grows(body(tagOf(v)), wider(tagOf(v)), n - 1);
    }
  }
}
