/** Wire codecs as values: a writer and a fallible reader. The laws below are what every part of the
    wire format keeps, and they compose: a codec built from lawful codecs is lawful. */
module Codecs {
  import opened Wrappers
  import opened Words64
  import opened Positional
  import SignedBytes

  type Byte = SignedBytes.Byte

  /** What a reader answers: the value and the number of bytes it took. */
  type Answer<T> = Option<(T, nat)>

  /** enc writes, dec reads, fits says what can be written, least bounds every image from below. */
  datatype Codec<!T> = Codec(enc: T -> seq<Byte>, dec: seq<Byte> -> Answer<T>, ghost fits: T -> bool, least: nat)

  /** Reading back what was written, whatever follows it. */
  ghost predicate RoundTrips<T(!new)>(c: Codec<T>) {
    forall v, rest :: c.fits(v) ==> c.dec(c.enc(v) + rest) == Some((v, |c.enc(v)|))
  }

  /** A reader takes bytes it was given, at least the bound, and only values that fit. */
  ghost predicate Bounded<T(!new)>(c: Codec<T>) {
    forall s :: c.dec(s).Some? ==> c.least <= c.dec(s).value.1 <= |s| && c.fits(c.dec(s).value.0)
  }

  /** Bytes after an accepted image do not change the answer. */
  ghost predicate Extends<T(!new)>(c: Codec<T>) {
    forall s, t :: c.dec(s).Some? ==> c.dec(s + t) == c.dec(s)
  }

  ghost predicate Lawful<T(!new)>(c: Codec<T>) {
    RoundTrips(c) && Bounded(c) && Extends(c)
  }

  /** The accepted image is the one the writer produces. */
  ghost predicate Canonical<T(!new)>(c: Codec<T>) {
    forall s :: c.dec(s).Some? && c.dec(s).value.1 <= |s| ==> c.enc(c.dec(s).value.0) == s[..c.dec(s).value.1]
  }

  /** A reader takes bytes it was given, at least the bound. */
  ghost predicate Measured<T(!new)>(c: Codec<T>) {
    forall s :: c.dec(s).Some? ==> c.least <= c.dec(s).value.1 <= |s|
  }

  /** The laws of a reader that may also accept values no writer is asked for. */
  ghost predicate Faithful<T(!new)>(c: Codec<T>) {
    RoundTrips(c) && Measured(c) && Extends(c)
  }

  // ---- consequences of the laws -------------------------------------------------------------

  lemma LawfulIsFaithful<T(!new)>(c: Codec<T>)
    requires Lawful(c)
    ensures Faithful(c)
  {
  }

  lemma FaithfulReadsBack<T(!new)>(c: Codec<T>, v: T, rest: seq<Byte>)
    requires Faithful(c) && c.fits(v)
    ensures c.dec(c.enc(v) + rest) == Some((v, |c.enc(v)|)) && |c.enc(v)| >= c.least
  {
    assert c.dec(c.enc(v) + rest).Some?;
  }

  lemma FaithfulTakes<T(!new)>(c: Codec<T>, s: seq<Byte>, t: seq<Byte>)
    requires Faithful(c)
    ensures c.dec(s).Some? ==> c.dec(s + t) == c.dec(s) && c.least <= c.dec(s).value.1 <= |s|
  {
  }

  lemma ReadsBack<T(!new)>(c: Codec<T>, v: T, rest: seq<Byte>)
    requires Lawful(c) && c.fits(v)
    ensures c.dec(c.enc(v) + rest) == Some((v, |c.enc(v)|)) && |c.enc(v)| >= c.least
  {
    assert c.dec(c.enc(v) + rest).Some?;
  }

  /** Every strict prefix of an image is refused. */
  lemma PrefixRefused<T(!new)>(c: Codec<T>, v: T, k: nat)
    requires Faithful(c) && c.fits(v) && k < |c.enc(v)|
    ensures c.dec(c.enc(v)[..k]) == None
  {
    var s := c.enc(v);
    FaithfulReadsBack(c, v, []);
    assert s + [] == s && s[..k] + s[k..] == s;
    FaithfulTakes(c, s[..k], s[k..]);
  }

  lemma TakesOnlyItsBytes<T(!new)>(c: Codec<T>, s: seq<Byte>, t: seq<Byte>)
    requires Lawful(c)
    ensures c.dec(s).Some? ==> c.dec(s + t) == c.dec(s) && c.least <= c.dec(s).value.1 <= |s| && c.fits(c.dec(s).value.0)
  {
  }

  /** Different values have different images, and no image is a prefix of another. */
  lemma PrefixFree<T(!new)>(c: Codec<T>, v: T, w: T)
    requires Lawful(c) && c.fits(v) && c.fits(w) && c.enc(v) <= c.enc(w)
    ensures v == w
  {
    var rest := c.enc(w)[|c.enc(v)|..];
    ReadsBack(c, v, rest);
    ReadsBack(c, w, []);
    assert c.enc(v) + rest == c.enc(w) == c.enc(w) + [];
  }

  // ---- raw bytes ----------------------------------------------------------------------------

  function Raw(n: nat): Codec<seq<Byte>> {
    Codec((v: seq<Byte>) => v,
          (s: seq<Byte>) => if |s| >= n then Some((s[..n], n)) else None,
          (v: seq<Byte>) => |v| == n, n)
  }

  lemma RawLawful(n: nat)
    ensures Lawful(Raw(n)) && Canonical(Raw(n))
  {
    var c := Raw(n);
    forall v: seq<Byte>, rest | c.fits(v) ensures c.dec(c.enc(v) + rest) == Some((v, |c.enc(v)|)) {
      assert (v + rest)[..n] == v;
    }
    forall s: seq<Byte>, t: seq<Byte> | c.dec(s).Some? ensures c.dec(s + t) == c.dec(s) {
      assert (s + t)[..n] == s[..n];
    }
  }

  // ---- a codec read as another type ---------------------------------------------------------

  function Mapped<A, B>(c: Codec<A>, to: A -> B, back: B -> A, ghost fits: B -> bool): Codec<B> {
    Codec((v: B) => c.enc(back(v)),
          (s: seq<Byte>) => match c.dec(s) { case None => None case Some((a, n)) => Some((to(a), n)) },
          fits, c.least)
  }

  lemma MappedLawful<A(!new), B(!new)>(c: Codec<A>, to: A -> B, back: B -> A, fits: B -> bool)
    requires Lawful(c)
    requires forall v: B :: fits(v) ==> c.fits(back(v)) && to(back(v)) == v
    requires forall a: A :: c.fits(a) ==> fits(to(a))
    ensures Lawful(Mapped(c, to, back, fits))
    ensures Canonical(c) && (forall a: A :: c.fits(a) ==> back(to(a)) == a) ==> Canonical(Mapped(c, to, back, fits))
  {
    var m := Mapped(c, to, back, fits);
    forall s: seq<Byte>, t: seq<Byte> | m.dec(s).Some? ensures m.dec(s + t) == m.dec(s) {
      assert c.dec(s).Some? && c.dec(s + t) == c.dec(s);
    }
    forall v: B, rest: seq<Byte> | m.fits(v) ensures m.dec(m.enc(v) + rest) == Some((v, |m.enc(v)|)) {
      assert c.fits(back(v));
    }
    forall s: seq<Byte> | m.dec(s).Some? ensures m.least <= m.dec(s).value.1 <= |s| && m.fits(m.dec(s).value.0) {
      assert c.dec(s).Some?;
    }
  }

  /** A record laid out as a tuple of its fields. */
  function Struct<A, B>(c: Codec<A>, to: A -> B, back: B -> A): Codec<B> {
    Mapped(c, to, back, (v: B) => c.fits(back(v)))
  }

  lemma StructShape<A(!new), B(!new)>(c: Codec<A>, to: A -> B, back: B -> A)
    ensures forall v: B :: Struct(c, to, back).fits(v) <==> c.fits(back(v))
    ensures forall v: B :: Struct(c, to, back).enc(v) == c.enc(back(v))
  {
  }

  lemma StructLawful<A(!new), B(!new)>(c: Codec<A>, to: A -> B, back: B -> A)
    requires Lawful(c)
    requires forall v: B :: to(back(v)) == v
    requires forall a: A :: c.fits(a) ==> back(to(a)) == a
    ensures Lawful(Struct(c, to, back))
    ensures Canonical(c) ==> Canonical(Struct(c, to, back))
  {
    MappedLawful(c, to, back, (v: B) => c.fits(back(v)));
  }

  /** One alternative of a sum: the other alternatives are not written. */
  function Variant<A, B>(c: Codec<A>, to: A -> B, back: B -> Option<A>): Codec<B> {
    Codec((v: B) => match back(v) { case None => [] case Some(a) => c.enc(a) },
          (s: seq<Byte>) => match c.dec(s) { case None => None case Some((a, n)) => Some((to(a), n)) },
          (v: B) => back(v).Some? && c.fits(back(v).value), c.least)
  }

  lemma VariantShape<A(!new), B(!new)>(c: Codec<A>, to: A -> B, back: B -> Option<A>, v: B)
    ensures Variant(c, to, back).fits(v) <==> back(v).Some? && c.fits(back(v).value)
    ensures back(v).Some? ==> Variant(c, to, back).enc(v) == c.enc(back(v).value)
  {
  }

  lemma VariantLawful<A(!new), B(!new)>(c: Codec<A>, to: A -> B, back: B -> Option<A>)
    requires Lawful(c)
    requires forall v: B :: back(v).Some? && c.fits(back(v).value) ==> to(back(v).value) == v
    requires forall a: A :: c.fits(a) ==> back(to(a)) == Some(a)
    ensures Lawful(Variant(c, to, back))
    ensures Canonical(c) ==> Canonical(Variant(c, to, back))
  {
    var m := Variant(c, to, back);
    forall s: seq<Byte>, t: seq<Byte> | m.dec(s).Some? ensures m.dec(s + t) == m.dec(s) && m.fits(m.dec(s).value.0) {
      TakesOnlyItsBytes(c, s, t);
    }
    forall v: B, rest: seq<Byte> | m.fits(v) ensures m.dec(m.enc(v) + rest) == Some((v, |m.enc(v)|)) {
      ReadsBack(c, back(v).value, rest);
    }
    forall s: seq<Byte> | m.dec(s).Some? ensures m.least <= m.dec(s).value.1 <= |s| && m.fits(m.dec(s).value.0) {
      TakesOnlyItsBytes(c, s, []);
    }
  }

  // ---- one part after another ---------------------------------------------------------------

  /** A part and a second part whose layout may depend on the first. */
  function Chain<A, B>(c: Codec<A>, next: A -> Codec<B>, extra: nat): Codec<(A, B)> {
    Codec((v: (A, B)) => c.enc(v.0) + next(v.0).enc(v.1), (s: seq<Byte>) => ChainDec(c, next, s),
          (v: (A, B)) => c.fits(v.0) && next(v.0).fits(v.1), c.least + extra)
  }

  function ChainDec<A, B>(c: Codec<A>, next: A -> Codec<B>, s: seq<Byte>): Answer<(A, B)> {
    match c.dec(s)
    case None => None
    case Some((a, n)) =>
      if n > |s| then None
      else match next(a).dec(s[n..]) { case None => None case Some((b, m)) => Some(((a, b), n + m)) }
  }

  ghost predicate ChainLinks<A(!new), B(!new)>(c: Codec<A>, next: A -> Codec<B>, extra: nat) {
    Lawful(c) && forall a: A :: c.fits(a) ==> Lawful(next(a)) && next(a).least >= extra
  }

  lemma ChainParts<A(!new), B(!new)>(c: Codec<A>, next: A -> Codec<B>, extra: nat, s: seq<Byte>)
    requires ChainLinks(c, next, extra) && ChainDec(c, next, s).Some?
    ensures c.dec(s).Some? && c.fits(c.dec(s).value.0) && c.least <= c.dec(s).value.1 <= |s|
    ensures
      var (a, n) := c.dec(s).value;
      && next(a).dec(s[n..]).Some? && next(a).fits(next(a).dec(s[n..]).value.0)
      && extra <= next(a).dec(s[n..]).value.1 <= |s| - n
      && ChainDec(c, next, s) == Some(((a, next(a).dec(s[n..]).value.0), n + next(a).dec(s[n..]).value.1))
  {
  }

  lemma ChainReadsBack<A(!new), B(!new)>(c: Codec<A>, next: A -> Codec<B>, extra: nat, v: (A, B), rest: seq<Byte>)
    requires ChainLinks(c, next, extra) && c.fits(v.0) && next(v.0).fits(v.1)
    ensures ChainDec(c, next, c.enc(v.0) + next(v.0).enc(v.1) + rest) == Some((v, |c.enc(v.0) + next(v.0).enc(v.1)|))
  {
    var x, y := c.enc(v.0), next(v.0).enc(v.1);
    assert x + y + rest == x + (y + rest);
    assert (x + (y + rest))[|x|..] == y + rest;
    ReadsBack(c, v.0, y + rest);
    ReadsBack(next(v.0), v.1, rest);
  }

  lemma ChainExtends<A(!new), B(!new)>(c: Codec<A>, next: A -> Codec<B>, extra: nat, s: seq<Byte>, t: seq<Byte>)
    requires ChainLinks(c, next, extra) && ChainDec(c, next, s).Some?
    ensures ChainDec(c, next, s + t) == ChainDec(c, next, s)
  {
    ChainParts(c, next, extra, s);
    var (a, n) := c.dec(s).value;
    TakesOnlyItsBytes(c, s, t);
    TakesOnlyItsBytes(next(a), s[n..], t);
    assert (s + t)[n..] == s[n..] + t;
  }

  lemma ChainLawful<A(!new), B(!new)>(c: Codec<A>, next: A -> Codec<B>, extra: nat)
    requires ChainLinks(c, next, extra)
    ensures Lawful(Chain(c, next, extra))
  {
    hide ChainDec, ChainLinks;
    var p := Chain(c, next, extra);
    forall v: (A, B), rest: seq<Byte> | p.fits(v) ensures p.dec(p.enc(v) + rest) == Some((v, |p.enc(v)|)) {
      ChainReadsBack(c, next, extra, v, rest);
    }
    forall s: seq<Byte> | p.dec(s).Some? ensures p.least <= p.dec(s).value.1 <= |s| && p.fits(p.dec(s).value.0) {
      ChainParts(c, next, extra, s);
    }
    forall s: seq<Byte>, t: seq<Byte> | p.dec(s).Some? ensures p.dec(s + t) == p.dec(s) {
      ChainExtends(c, next, extra, s, t);
    }
  }

  lemma ChainCanonicalAt<A(!new), B(!new)>(c: Codec<A>, next: A -> Codec<B>, extra: nat, s: seq<Byte>)
    requires ChainLinks(c, next, extra) && Canonical(c) && ChainDec(c, next, s).Some?
    requires c.dec(s).Some? && Canonical(next(c.dec(s).value.0))
    ensures ChainDec(c, next, s).value.1 <= |s|
    ensures Chain(c, next, extra).enc(ChainDec(c, next, s).value.0) == s[..ChainDec(c, next, s).value.1]
  {
    hide ChainDec;
    ChainParts(c, next, extra, s);
    var (a, n) := c.dec(s).value;
    var m := next(a).dec(s[n..]).value.1;
    assert s[..n] + s[n..][..m] == s[..n + m];
  }

  lemma ChainCanonical<A(!new), B(!new)>(c: Codec<A>, next: A -> Codec<B>, extra: nat)
    requires ChainLinks(c, next, extra) && Canonical(c) && forall a: A :: c.fits(a) ==> Canonical(next(a))
    ensures Canonical(Chain(c, next, extra))
  {
    hide ChainDec;
    var p := Chain(c, next, extra);
    forall s: seq<Byte> | p.dec(s).Some? && p.dec(s).value.1 <= |s| ensures p.enc(p.dec(s).value.0) == s[..p.dec(s).value.1] {
      ChainParts(c, next, extra, s);
      ChainCanonicalAt(c, next, extra, s);
    }
  }

  lemma ChainShape<A(!new), B(!new)>(c: Codec<A>, next: A -> Codec<B>, extra: nat)
    ensures forall v: (A, B) :: Chain(c, next, extra).fits(v) <==> c.fits(v.0) && next(v.0).fits(v.1)
    ensures forall v: (A, B) :: Chain(c, next, extra).enc(v) == c.enc(v.0) + next(v.0).enc(v.1)
  {
  }

  function Pair<A, B>(a: Codec<A>, b: Codec<B>): Codec<(A, B)> {
    Chain(a, (x: A) => b, b.least)
  }

  lemma PairLawful<A(!new), B(!new)>(a: Codec<A>, b: Codec<B>)
    requires Lawful(a) && Lawful(b)
    ensures Lawful(Pair(a, b))
    ensures Canonical(a) && Canonical(b) ==> Canonical(Pair(a, b))
  {
    ChainLawful(a, (x: A) => b, b.least);
    if Canonical(a) && Canonical(b) {
      ChainCanonical(a, (x: A) => b, b.least);
    }
  }

  lemma PairShape<A(!new), B(!new)>(a: Codec<A>, b: Codec<B>)
    ensures forall v: (A, B) :: Pair(a, b).fits(v) <==> a.fits(v.0) && b.fits(v.1)
    ensures forall v: (A, B) :: Pair(a, b).enc(v) == a.enc(v.0) + b.enc(v.1)
    ensures Pair(a, b).least == a.least + b.least
  {
  }

  lemma PairDec<A, B>(a: Codec<A>, b: Codec<B>, s: seq<Byte>)
    ensures Pair(a, b).dec(s) ==
      match a.dec(s)
      case None => None
      case Some((x, n)) =>
        if n > |s| then None
        else match b.dec(s[n..]) { case None => None case Some((y, m)) => Some(((x, y), n + m)) }
  {
  }

  /** No layout at all: nothing is written, nothing is read. */
  function Refused<T>(): Codec<T> {
    Codec((v: T) => [], (s: seq<Byte>) => None, (v: T) => false, 0)
  }

  lemma RefusedLawful<T(!new)>()
    ensures Lawful(Refused<T>()) && Canonical(Refused<T>())
  {
  }
}
