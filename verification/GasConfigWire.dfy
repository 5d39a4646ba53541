/** The wire image of the gas configuration: nineteen words, and ten more from version 1 on. */
module GasConfigWire {
  import opened Wrappers
  import opened Words64
  import opened Positional
  import opened Codecs
  import opened WireFormat
  import opened GasConfigs
  import opened Views

  // ---- rows of little-endian words ----------------------------------------------------------

  function NoWords(): Codec<seq<nat>> {
    Mapped(Raw(0), (s: seq<Byte>) => [], (v: seq<nat>) => [], (v: seq<nat>) => v == [])
  }

  function Cons(p: (nat, seq<nat>)): seq<nat> {
    [p.0] + p.1
  }

  function Uncons(v: seq<nat>): Option<(nat, seq<nat>)> {
    if v == [] then None else Some((v[0], v[1..]))
  }

  /** Words of the given widths, one after another. */
  function WordsCodec(widths: seq<nat>): Codec<seq<nat>> {
    if widths == [] then NoWords()
    else Variant(Pair(WholeCodec(widths[0]), WordsCodec(widths[1..])), Cons, Uncons)
  }

  lemma {:induction false} RowLawful(widths: seq<nat>)
    ensures Lawful(WordsCodec(widths)) && Canonical(WordsCodec(widths))
  {
    hide Lawful, Canonical;
    if widths == [] {
      RawLawful(0);
      MappedLawful(Raw(0), (s: seq<Byte>) => [], (v: seq<nat>) => [], (v: seq<nat>) => v == []);
    } else {
      hide WholeCodec, Pair;
      var rest := WordsCodec(widths[1..]);
      RowLawful(widths[1..]);
      WholeLawful(widths[0]);
      PairLawful(WholeCodec(widths[0]), rest);
      ConsUncons();
      VariantLawful(Pair(WholeCodec(widths[0]), rest), Cons, Uncons);
    }
  }

  lemma ConsUncons()
    ensures forall v: seq<nat> :: Uncons(v).Some? ==> Cons(Uncons(v).value) == v
    ensures forall a: (nat, seq<nat>) :: Uncons(Cons(a)) == Some(a)
  {
    forall v: seq<nat> | v != [] ensures [v[0]] + v[1..] == v {
    }
    forall a: (nat, seq<nat>) ensures ([a.0] + a.1)[1..] == a.1 {
    }
  }

  function Total(widths: seq<nat>): nat {
    if widths == [] then 0 else widths[0] + Total(widths[1..])
  }

  /** What fits, and how long the image is. */
  lemma {:induction false} WordsShape(widths: seq<nat>, v: seq<nat>)
    ensures WordsCodec(widths).fits(v) <==> |v| == |widths| && forall i :: 0 <= i < |v| ==> v[i] < Pow(256, widths[i])
    ensures |v| == |widths| ==> |WordsCodec(widths).enc(v)| == Total(widths)
  {
    if widths == [] {
      RawLawful(0);
    } else {
      RowShape(widths, v);
      if v != [] {
        WordsShape(widths[1..], v[1..]);
        if |v| == |widths| {
          Below(widths, v);
        }
      }
    }
  }

  lemma RowShape(widths: seq<nat>, v: seq<nat>)
    requires widths != []
    ensures WordsCodec(widths).fits(v) <==> v != [] && v[0] < Pow(256, widths[0]) && WordsCodec(widths[1..]).fits(v[1..])
    ensures v != [] ==> |WordsCodec(widths).enc(v)| == widths[0] + |WordsCodec(widths[1..]).enc(v[1..])|
  {
    hide Pow, WholeCodec, Pair, Variant;
    var rest := WordsCodec(widths[1..]);
    PairShape(WholeCodec(widths[0]), rest);
    VariantShape(Pair(WholeCodec(widths[0]), rest), Cons, Uncons, v);
    if v != [] { WordShape(widths[0], v[0]); }
  }

  lemma WordShape(width: nat, v: nat)
    ensures WholeCodec(width).fits(v) <==> v < Pow(256, width)
    ensures |WholeCodec(width).enc(v)| == width
  {
    hide Pow;
  }

  lemma Below(widths: seq<nat>, v: seq<nat>)
    requires widths != [] && v != [] && |v| == |widths|
    ensures (forall i :: 0 <= i < |v| ==> v[i] < Pow(256, widths[i])) <==>
      v[0] < Pow(256, widths[0]) && forall i :: 0 <= i < |v[1..]| ==> v[1..][i] < Pow(256, widths[1..][i])
  {
    hide Pow;
    if v[0] < Pow(256, widths[0]) && forall i :: 0 <= i < |v[1..]| ==> v[1..][i] < Pow(256, widths[1..][i]) {
      forall i | 0 <= i < |v| ensures v[i] < Pow(256, widths[i]) {
        if i > 0 { assert v[1..][i - 1] < Pow(256, widths[1..][i - 1]); }
      }
    }
  }

  // ---- the configuration --------------------------------------------------------------------

  function Eights(n: nat): (r: seq<nat>)
    ensures |r| == n && forall i :: 0 <= i < n ==> r[i] == 8
  {
    seq(n, _ => 8)
  }

  function HeadWidths(): seq<nat> {
    [1, 1, 1, 1, 4] + Eights(13) + [1]
  }

  function TailWidths(): seq<nat> {
    [8, 8, 1, 8, 1] + Eights(5)
  }

  function HeadWords(c: GasConfig): seq<nat> {
    [
      c.version, c.maxNameLength, c.maxTokenSymbolLength, c.feeShift, c.maxStructureSize, c.feeMultiplier,
      c.gasTokenId, c.dataTokenId, c.minimumGasOffer, c.dataEscrowPerRow, c.gasFeeTransfer, c.gasFeeQuery,
      c.gasFeeCreateTokenBase, c.gasFeeCreateTokenSymbol, c.gasFeeCreateTokenSeries, c.gasFeePerByte,
      c.gasFeeRegisterName, c.gasBurnRatioMul, c.gasBurnRatioShift
    ]
  }

  function TailWords(c: GasConfig): seq<nat> {
    [
      c.minimumGasBill, c.gasProducerRatioMul, c.gasProducerRatioShift, c.gasDappRatioMul, c.gasDappRatioShift,
      c.policyFeeCreateTokenBase, c.policyFeeCreateTokenSymbol, c.policyFeeCreateTokenSeries,
      c.policyFeeRegisterName, c.legacyDataEscrowPerRow
    ]
  }

  function AsU8(n: nat): U8 {
    n % 0x100
  }

  function AsU32(n: nat): U32 {
    n % 0x1_0000_0000
  }

  function AsU64(n: nat): U64 {
    n % 0x1_0000_0000_0000_0000
  }

  function ToConfig(p: (seq<nat>, seq<nat>)): GasConfig {
    if |p.0| != 19 || |p.1| != 10 then NO_CONFIG
    else
      GasConfig(
        AsU8(p.0[0]), AsU8(p.0[1]), AsU8(p.0[2]), AsU8(p.0[3]), AsU32(p.0[4]), AsU64(p.0[5]), AsU64(p.0[6]),
        AsU64(p.0[7]), AsU64(p.0[8]), AsU64(p.0[9]), AsU64(p.0[10]), AsU64(p.0[11]), AsU64(p.0[12]),
        AsU64(p.0[13]), AsU64(p.0[14]), AsU64(p.0[15]), AsU64(p.0[16]), AsU64(p.0[17]), AsU8(p.0[18]),
        AsU64(p.1[0]), AsU64(p.1[1]), AsU8(p.1[2]), AsU64(p.1[3]), AsU8(p.1[4]), AsU64(p.1[5]), AsU64(p.1[6]),
        AsU64(p.1[7]), AsU64(p.1[8]), AsU64(p.1[9]))
  }

  const NO_CONFIG := GasConfig(0, 0, 0, 0, 0, 0, 0, 0, 0, 0, 0, 0, 0, 0, 0, 0, 0, 0, 0, 0, 0, 0, 0, 0, 0, 0, 0, 0, 0)

  /** The tail fields of a version 0 configuration. */
  function NoTail(): seq<nat> {
    [0, 0, 0, 0, 0, 0, 0, 0, 0, 0]
  }

  function OfConfig(c: GasConfig): (seq<nat>, seq<nat>) {
    (HeadWords(c), TailWords(c))
  }

  /** A version 0 image ends after the head; its tail fields read as zero. */
  function TailCodec(head: seq<nat>): Codec<seq<nat>> {
    if head != [] && head[0] == 0 then Mapped(Raw(0), (s: seq<Byte>) => NoTail(), (v: seq<nat>) => [], (v: seq<nat>) => v == NoTail())
    else WordsCodec(TailWidths())
  }

  function ConfigParts(): Codec<(seq<nat>, seq<nat>)> {
    Chain(WordsCodec(HeadWidths()), (h: seq<nat>) => TailCodec(h), 0)
  }

  function GasConfigCodec(): Codec<GasConfig> {
    Struct(ConfigParts(), ToConfig, OfConfig)
  }

  /** Version 0 carries no tail fields. */
  predicate TailClear(c: GasConfig) {
    c.version == 0 ==> TailWords(c) == NoTail()
  }

  lemma TailLawful(head: seq<nat>)
    ensures Lawful(TailCodec(head)) && Canonical(TailCodec(head))
  {
    hide Lawful, Canonical, WordsCodec;
    RawLawful(0);
    RowLawful(TailWidths());
    MappedLawful(Raw(0), (s: seq<Byte>) => NoTail(), (v: seq<nat>) => [], (v: seq<nat>) => v == NoTail());
  }

  lemma ConfigPartsLawful()
    ensures Lawful(ConfigParts()) && Canonical(ConfigParts())
  {
    hide Lawful, Canonical, WordsCodec, TailCodec;
    RowLawful(HeadWidths());
    forall h: seq<nat> ensures Lawful(TailCodec(h)) && Canonical(TailCodec(h)) { TailLawful(h); }
    ChainLawful(WordsCodec(HeadWidths()), (h: seq<nat>) => TailCodec(h), 0);
    ChainCanonical(WordsCodec(HeadWidths()), (h: seq<nat>) => TailCodec(h), 0);
  }

  lemma SmallWords(c: GasConfig)
    ensures WordsCodec(HeadWidths()).fits(HeadWords(c)) && WordsCodec(TailWidths()).fits(TailWords(c))
    ensures |WordsCodec(HeadWidths()).enc(HeadWords(c))| == 113 && |WordsCodec(TailWidths()).enc(TailWords(c))| == 66
  {
    hide Pow, WordsCodec, Total;
    WordsShape(HeadWidths(), HeadWords(c));
    WordsShape(TailWidths(), TailWords(c));
    HeadBelow(c);
    TailBelow(c);
    Sums();
  }

  lemma HeadBelow(c: GasConfig)
    ensures |HeadWords(c)| == |HeadWidths()| && forall i :: 0 <= i < |HeadWords(c)| ==> HeadWords(c)[i] < Pow(256, HeadWidths()[i])
  {
    hide Pow;
    BytePowers();
  }

  lemma TailBelow(c: GasConfig)
    ensures |TailWords(c)| == |TailWidths()| && forall i :: 0 <= i < |TailWords(c)| ==> TailWords(c)[i] < Pow(256, TailWidths()[i])
  {
    hide Pow;
    BytePowers();
  }

  lemma Sums()
    ensures Total(HeadWidths()) == 113 && Total(TailWidths()) == 66
  {
    TotalConcat([1, 1, 1, 1, 4] + Eights(13), [1]);
    TotalConcat([1, 1, 1, 1, 4], Eights(13));
    TotalConcat([8, 8, 1, 8, 1], Eights(5));
    TotalEights(13);
    TotalEights(5);
    TotalFive(1, 1, 1, 1, 4);
    TotalFive(8, 8, 1, 8, 1);
  }

  lemma TotalFive(a: nat, b: nat, c: nat, d: nat, e: nat)
    ensures Total([a, b, c, d, e]) == a + b + c + d + e && Total([a]) == a
  {
    assert [e][1..] == [] && [d, e][1..] == [e] && [c, d, e][1..] == [d, e] && [b, c, d, e][1..] == [c, d, e];
    assert [a, b, c, d, e][1..] == [b, c, d, e] && [a][1..] == [];
    assert Total([e]) == e;
    assert Total([d, e]) == d + e;
    assert Total([c, d, e]) == c + d + e;
    assert Total([b, c, d, e]) == b + c + d + e;
  }

  lemma {:induction false} TotalEights(n: nat)
    ensures Total(Eights(n)) == 8 * n
  {
    if n > 0 {
      TotalEights(n - 1);
      assert Eights(n)[1..] == Eights(n - 1);
    }
  }

  lemma {:induction false} TotalConcat(a: seq<nat>, b: seq<nat>)
    ensures Total(a + b) == Total(a) + Total(b)
  {
    if a == [] {
      assert a + b == b;
    } else {
      TotalConcat(a[1..], b);
      assert (a + b)[1..] == a[1..] + b;
    }
  }

  lemma ConfigBack(c: GasConfig)
    ensures ToConfig(OfConfig(c)) == c
  {
  }

  /** Reading a written configuration returns it, whatever follows: every version 1 configuration, and
      every version 0 configuration without tail fields. */
  lemma ConfigReadsBack(c: GasConfig, rest: seq<Byte>)
    requires TailClear(c)
    ensures GasConfigCodec().dec(GasConfigCodec().enc(c) + rest) == Some((c, |GasConfigCodec().enc(c)|))
    ensures |GasConfigCodec().enc(c)| == if c.version == 0 then 113 else 179
  {
    hide WordsCodec, Lawful, Canonical, ToConfig, HeadWords, TailWords, Chain;
    var parts := OfConfig(c);
    SmallWords(c);
    ConfigPartsLawful();
    ChainShape(WordsCodec(HeadWidths()), (h: seq<nat>) => TailCodec(h), 0);
    HeadVersion(c);
    TailShape(c);
    ReadsBack(ConfigParts(), parts, rest);
    ConfigBack(c);
  }

  lemma HeadVersion(c: GasConfig)
    ensures HeadWords(c) != [] && HeadWords(c)[0] == c.version
  {
  }

  lemma TailShape(c: GasConfig)
    requires TailClear(c)
    ensures TailCodec(HeadWords(c)).fits(TailWords(c))
    ensures |TailCodec(HeadWords(c)).enc(TailWords(c))| == if c.version == 0 then 0 else 66
  {
    hide WordsCodec;
    HeadVersion(c);
    SmallWords(c);
  }

  /** A truncated image is refused; above all an image of version 1 or more cut to the length of a
      version 0 image. */
  lemma ConfigTruncationRefused(c: GasConfig, k: nat)
    requires TailClear(c) && k < |GasConfigCodec().enc(c)|
    ensures GasConfigCodec().dec(GasConfigCodec().enc(c)[..k]) == None
  {
    hide WordsCodec, Lawful, Faithful, Canonical, ToConfig, HeadWords, TailWords, Chain;
    SmallWords(c);
    ConfigPartsLawful();
    LawfulIsFaithful(ConfigParts());
    ChainShape(WordsCodec(HeadWidths()), (h: seq<nat>) => TailCodec(h), 0);
    TailShape(c);
    PrefixRefused(ConfigParts(), OfConfig(c), k);
  }

  /** A version 0 image does not depend on the tail fields, and reads back with all of them zero. */
  lemma OldImageIsFrozen(c: GasConfig, d: GasConfig)
    requires c.version == 0 && HeadWords(c) == HeadWords(d) && TailClear(d)
    ensures GasConfigCodec().enc(c) == GasConfigCodec().enc(d)
    ensures GasConfigCodec().dec(GasConfigCodec().enc(c)) == Some((d, 113))
  {
    hide WordsCodec, HeadWords, TailWords, ToConfig, Chain, Struct;
    HeadVersion(c);
    HeadVersion(d);
    StructShape(ConfigParts(), ToConfig, OfConfig);
    ChainShape(WordsCodec(HeadWidths()), (h: seq<nat>) => TailCodec(h), 0);
    assert TailCodec(HeadWords(c)).enc(TailWords(c)) == [] == TailCodec(HeadWords(d)).enc(TailWords(d));
    ConfigReadsBack(d, []);
    assert GasConfigCodec().enc(d) + [] == GasConfigCodec().enc(d);
  }

  // ---- reading field by field ---------------------------------------------------------------

  function Before(words: seq<nat>, n: nat, rest: Answer<seq<nat>>): Answer<seq<nat>> {
    match rest case None => None case Some((more, k)) => Some((words + more, n + k))
  }

  /** The first words of a row are read off s, and the cursor stands before the next. */
  ghost predicate RowSoFar(widths: seq<nat>, s: seq<Byte>, i: nat, words: seq<nat>, bytes: seq<Byte>) {
    && |words| == i <= |widths| && |bytes| <= |s| && bytes == s[|s| - |bytes|..]
    && WordsCodec(widths).dec(s) == Before(words, |s| - |bytes|, WordsCodec(widths[i..]).dec(bytes))
  }

  lemma RowStarts(widths: seq<nat>, s: seq<Byte>)
    ensures RowSoFar(widths, s, 0, [], s)
  {
    hide WordsCodec;
    assert widths[0..] == widths;
    var a := WordsCodec(widths).dec(s);
    if a.Some? { assert [] + a.value.0 == a.value.0; }
  }

  lemma RowDec(widths: seq<nat>, s: seq<Byte>)
    requires widths != []
    ensures WordsCodec(widths).dec(s) ==
      match WholeCodec(widths[0]).dec(s) {
        case None => None
        case Some((v, n)) => if n > |s| then None else Before([v], n, WordsCodec(widths[1..]).dec(s[n..]))
      }
  {
    hide WholeCodec, Pair;
    PairDec(WholeCodec(widths[0]), WordsCodec(widths[1..]), s);
  }

  lemma RowStep(widths: seq<nat>, s: seq<Byte>, i: nat, words: seq<nat>, before: seq<Byte>, after: seq<Byte>, fail: bool, out: Option<nat>)
    requires RowSoFar(widths, s, i, words, before) && i < |widths|
    requires Reads(WholeCodec(widths[i]), before, after, fail, out)
    ensures out.None? ==> WordsCodec(widths).dec(s) == None
    ensures out.Some? ==> RowSoFar(widths, s, i + 1, words + [out.value], after)
  {
    hide WordsCodec, WholeCodec;
    var left := widths[i..];
    RowDec(left, before);
    if out.Some? {
      var n := WholeCodec(left[0]).dec(before).value.1;
      assert after == before[n..] && left[1..] == widths[i + 1..];
      var rest := WordsCodec(left[1..]).dec(after);
      if rest.Some? { assert words + ([out.value] + rest.value.0) == words + [out.value] + rest.value.0; }
    }
  }

  lemma RowEnds(widths: seq<nat>, s: seq<Byte>, words: seq<nat>, bytes: seq<Byte>, fail: bool)
    requires RowSoFar(widths, s, |widths|, words, bytes) && !fail
    ensures Reads(WordsCodec(widths), s, bytes, fail, Some(words))
  {
    assert widths[|widths|..] == [];
    assert words + [] == words;
  }

  lemma NoRow(widths: seq<nat>, s: seq<Byte>, bytes: seq<Byte>, fail: bool)
    requires WordsCodec(widths).dec(s) == None
    ensures Reads(WordsCodec(widths), s, bytes, fail, None)
  {
  }

  /** One field, as wide as its type. */
  method ReadField(width: nat, r: ReadView, ghost widths: seq<nat>, ghost s: seq<Byte>, ghost i: nat, ghost words: seq<nat>)
    returns (out: Option<nat>, ghost now: seq<nat>)
    requires !r.fail && RowSoFar(widths, s, i, words, r.bytes) && i < |widths| && widths[i] == width
    modifies r`bytes, r`fail
    ensures out.Some? ==> !r.fail && out.value < Pow(256, width) && now == words + [out.value] && RowSoFar(widths, s, i + 1, now, r.bytes)
    ensures out.None? ==> Reads(WordsCodec(widths), s, r.bytes, r.fail, None)
  {
    hide WordsCodec, RowSoFar, Number, Pow, LittleEndian, Reads;
    ghost var before := r.bytes;
    out := ReadWhole(width, r);
    RowStep(widths, s, i, words, before, r.bytes, r.fail, out);
    now := if out.Some? then words + [out.value] else words;
    if out.Some? {
      FieldBelow(width, before, r.bytes, r.fail, out);
    } else {
      NoRow(widths, s, r.bytes, r.fail);
    }
  }

  lemma FieldBelow(width: nat, before: seq<Byte>, after: seq<Byte>, fail: bool, out: Option<nat>)
    requires Reads(WholeCodec(width), before, after, fail, out) && out.Some?
    ensures out.value < Pow(256, width)
  {
    hide Pow, LittleEndian, Number;
    NumberWritten(before[..width]);
  }

  lemma FieldSizes()
    ensures Pow(256, 1) == 0x100 && Pow(256, 4) == 0x1_0000_0000 && Pow(256, 8) == 0x1_0000_0000_0000_0000
    ensures |HeadWidths()| == 19 && HeadWidths()[0] == 1 && HeadWidths()[1] == 1 && HeadWidths()[2] == 1 && HeadWidths()[3] == 1 && HeadWidths()[4] == 4
      && HeadWidths()[5] == 8 && HeadWidths()[6] == 8 && HeadWidths()[7] == 8 && HeadWidths()[8] == 8 && HeadWidths()[9] == 8
      && HeadWidths()[10] == 8 && HeadWidths()[11] == 8 && HeadWidths()[12] == 8 && HeadWidths()[13] == 8 && HeadWidths()[14] == 8
      && HeadWidths()[15] == 8 && HeadWidths()[16] == 8 && HeadWidths()[17] == 8 && HeadWidths()[18] == 1
    ensures |TailWidths()| == 10 && TailWidths()[0] == 8 && TailWidths()[1] == 8 && TailWidths()[2] == 1 && TailWidths()[3] == 8 && TailWidths()[4] == 1
      && TailWidths()[5] == 8 && TailWidths()[6] == 8 && TailWidths()[7] == 8 && TailWidths()[8] == 8 && TailWidths()[9] == 8
  {
    hide Pow;
    BytePowers();
  }

  /** The first nine of them, which say what a message may hold. */
  function FirstWords(c: GasConfig): (words: seq<nat>)
    ensures |words| == 9
  {
    [c.version, c.maxNameLength, c.maxTokenSymbolLength, c.feeShift, c.maxStructureSize, c.feeMultiplier, c.gasTokenId, c.dataTokenId, c.minimumGasOffer]
  }

  method ReadFirst(r: ReadView) returns (out: Option<GasConfig>)
    requires !r.fail
    modifies r`bytes, r`fail
    ensures out.None? ==> Reads(WordsCodec(HeadWidths()), old(r.bytes), r.bytes, r.fail, None)
    ensures out.Some? ==> !r.fail && TailWords(out.value) == NoTail() && RowSoFar(HeadWidths(), old(r.bytes), 9, FirstWords(out.value), r.bytes)
  {
    hide WordsCodec, RowSoFar, Reads, Pow, HeadWidths, TailWidths;
    FieldSizes();
    ghost var s, W := r.bytes, HeadWidths();
    RowStarts(W, s);
    var version, d1 := ReadField(1, r, W, s, 0, []);
    if version.None? { return None; }
    var maxNameLength, d2 := ReadField(1, r, W, s, 1, d1);
    if maxNameLength.None? { return None; }
    var maxTokenSymbolLength, d3 := ReadField(1, r, W, s, 2, d2);
    if maxTokenSymbolLength.None? { return None; }
    var feeShift, d4 := ReadField(1, r, W, s, 3, d3);
    if feeShift.None? { return None; }
    var maxStructureSize, d5 := ReadField(4, r, W, s, 4, d4);
    if maxStructureSize.None? { return None; }
    var feeMultiplier, d6 := ReadField(8, r, W, s, 5, d5);
    if feeMultiplier.None? { return None; }
    var gasTokenId, d7 := ReadField(8, r, W, s, 6, d6);
    if gasTokenId.None? { return None; }
    var dataTokenId, d8 := ReadField(8, r, W, s, 7, d7);
    if dataTokenId.None? { return None; }
    var minimumGasOffer, d9 := ReadField(8, r, W, s, 8, d8);
    if minimumGasOffer.None? { return None; }
    out := Some(NO_CONFIG.(
      version := version.value, maxNameLength := maxNameLength.value, maxTokenSymbolLength := maxTokenSymbolLength.value, feeShift := feeShift.value,
      maxStructureSize := maxStructureSize.value, feeMultiplier := feeMultiplier.value, gasTokenId := gasTokenId.value,
      dataTokenId := dataTokenId.value, minimumGasOffer := minimumGasOffer.value));
    assert FirstWords(out.value) == d9;
  }

  /** The fields every version carries; the others are cleared. */
  method ReadHead(r: ReadView) returns (out: Option<GasConfig>)
    requires !r.fail
    modifies r`bytes, r`fail
    ensures Reads(WordsCodec(HeadWidths()), old(r.bytes), r.bytes, r.fail, if out.Some? then Some(HeadWords(out.value)) else None)
    ensures out.Some? ==> !r.fail && TailWords(out.value) == NoTail()
  {
    hide WordsCodec, RowSoFar, Reads, Pow, HeadWidths, TailWidths;
    FieldSizes();
    ghost var s, W := r.bytes, HeadWidths();
    out := ReadFirst(r);
    if out.None? { return None; }
    ghost var d9 := FirstWords(out.value);
    var dataEscrowPerRow, d10 := ReadField(8, r, W, s, 9, d9);
    if dataEscrowPerRow.None? { return None; }
    var gasFeeTransfer, d11 := ReadField(8, r, W, s, 10, d10);
    if gasFeeTransfer.None? { return None; }
    var gasFeeQuery, d12 := ReadField(8, r, W, s, 11, d11);
    if gasFeeQuery.None? { return None; }
    var gasFeeCreateTokenBase, d13 := ReadField(8, r, W, s, 12, d12);
    if gasFeeCreateTokenBase.None? { return None; }
    var gasFeeCreateTokenSymbol, d14 := ReadField(8, r, W, s, 13, d13);
    if gasFeeCreateTokenSymbol.None? { return None; }
    var gasFeeCreateTokenSeries, d15 := ReadField(8, r, W, s, 14, d14);
    if gasFeeCreateTokenSeries.None? { return None; }
    var gasFeePerByte, d16 := ReadField(8, r, W, s, 15, d15);
    if gasFeePerByte.None? { return None; }
    var gasFeeRegisterName, d17 := ReadField(8, r, W, s, 16, d16);
    if gasFeeRegisterName.None? { return None; }
    var gasBurnRatioMul, d18 := ReadField(8, r, W, s, 17, d17);
    if gasBurnRatioMul.None? { return None; }
    var gasBurnRatioShift, d19 := ReadField(1, r, W, s, 18, d18);
    if gasBurnRatioShift.None? { return None; }
    RowEnds(W, s, d19, r.bytes, r.fail);
    out := Some(out.value.(
      dataEscrowPerRow := dataEscrowPerRow.value, gasFeeTransfer := gasFeeTransfer.value, gasFeeQuery := gasFeeQuery.value,
      gasFeeCreateTokenBase := gasFeeCreateTokenBase.value, gasFeeCreateTokenSymbol := gasFeeCreateTokenSymbol.value,
      gasFeeCreateTokenSeries := gasFeeCreateTokenSeries.value, gasFeePerByte := gasFeePerByte.value,
      gasFeeRegisterName := gasFeeRegisterName.value, gasBurnRatioMul := gasBurnRatioMul.value, gasBurnRatioShift := gasBurnRatioShift.value));
    assert HeadWords(out.value) == d19;
  }

  /** The ten fields that follow from version 1 on. */
  method ReadTail(head: GasConfig, r: ReadView) returns (out: Option<GasConfig>)
    requires !r.fail
    modifies r`bytes, r`fail
    ensures Reads(WordsCodec(TailWidths()), old(r.bytes), r.bytes, r.fail, if out.Some? then Some(TailWords(out.value)) else None)
    ensures out.Some? ==> !r.fail && HeadWords(out.value) == HeadWords(head)
  {
    hide WordsCodec, RowSoFar, Reads, Pow, HeadWidths, TailWidths;
    FieldSizes();
    ghost var s, W := r.bytes, TailWidths();
    RowStarts(W, s);
    var minimumGasBill, d1 := ReadField(8, r, W, s, 0, []);
    if minimumGasBill.None? { return None; }
    var gasProducerRatioMul, d2 := ReadField(8, r, W, s, 1, d1);
    if gasProducerRatioMul.None? { return None; }
    var gasProducerRatioShift, d3 := ReadField(1, r, W, s, 2, d2);
    if gasProducerRatioShift.None? { return None; }
    var gasDappRatioMul, d4 := ReadField(8, r, W, s, 3, d3);
    if gasDappRatioMul.None? { return None; }
    var gasDappRatioShift, d5 := ReadField(1, r, W, s, 4, d4);
    if gasDappRatioShift.None? { return None; }
    var policyFeeCreateTokenBase, d6 := ReadField(8, r, W, s, 5, d5);
    if policyFeeCreateTokenBase.None? { return None; }
    var policyFeeCreateTokenSymbol, d7 := ReadField(8, r, W, s, 6, d6);
    if policyFeeCreateTokenSymbol.None? { return None; }
    var policyFeeCreateTokenSeries, d8 := ReadField(8, r, W, s, 7, d7);
    if policyFeeCreateTokenSeries.None? { return None; }
    var policyFeeRegisterName, d9 := ReadField(8, r, W, s, 8, d8);
    if policyFeeRegisterName.None? { return None; }
    var legacyDataEscrowPerRow, d10 := ReadField(8, r, W, s, 9, d9);
    if legacyDataEscrowPerRow.None? { return None; }
    RowEnds(W, s, d10, r.bytes, r.fail);
    out := Some(head.(
      minimumGasBill := minimumGasBill.value, gasProducerRatioMul := gasProducerRatioMul.value, gasProducerRatioShift := gasProducerRatioShift.value, gasDappRatioMul := gasDappRatioMul.value, gasDappRatioShift := gasDappRatioShift.value, policyFeeCreateTokenBase := policyFeeCreateTokenBase.value, policyFeeCreateTokenSymbol := policyFeeCreateTokenSymbol.value, policyFeeCreateTokenSeries := policyFeeCreateTokenSeries.value, policyFeeRegisterName := policyFeeRegisterName.value, legacyDataEscrowPerRow := legacyDataEscrowPerRow.value));
    assert TailWords(out.value) == d10;
  }

  /** The head, and the tail unless the version is 0. */
  method ReadGasConfig(r: ReadView) returns (out: Option<GasConfig>)
    requires !r.fail
    modifies r`bytes, r`fail
    ensures Reads(GasConfigCodec(), old(r.bytes), r.bytes, r.fail, out)
    ensures out.Some? ==> !r.fail
  {
    hide WordsCodec, Chain, Struct, ToConfig, Reads, HeadWords, TailWords, TailCodec;
    ghost var s0 := r.bytes;
    var head := ReadHead(r);
    ghost var s1, f1 := r.bytes, r.fail;
    ghost var headWords := if head.Some? then Some(HeadWords(head.value)) else None;
    out := head;
    if head.Some? {
      HeadVersion(head.value);
      if head.value.version == 0 {
        NoTailRead(HeadWords(head.value), r.bytes);
      } else {
        out := ReadTail(head.value, r);
        FullTail(HeadWords(head.value));
      }
    }
    ghost var tailWords := if out.Some? then Some(TailWords(out.value)) else None;
    ChainReads(WordsCodec(HeadWidths()), (h: seq<nat>) => TailCodec(h), 0, s0, s1, r.bytes, f1, r.fail, headWords, tailWords);
    ghost var parts := if out.Some? then Some(OfConfig(out.value)) else None;
    StructReads(ConfigParts(), ToConfig, OfConfig, s0, r.bytes, r.fail, parts);
    if out.Some? { ConfigBack(out.value); }
  }

  lemma NoTailRead(head: seq<nat>, s: seq<Byte>)
    requires head != [] && head[0] == 0
    ensures Reads(TailCodec(head), s, s, false, Some(NoTail()))
  {
  }

  lemma FullTail(head: seq<nat>)
    requires head != [] && head[0] != 0
    ensures TailCodec(head) == WordsCodec(TailWidths())
  {
  }

  // ---- writing field by field ---------------------------------------------------------------

  /** What is written and what the row still lacks make up the image. */
  ghost predicate RowLeft(widths: seq<nat>, values: seq<nat>, i: nat, m: seq<Byte>, all: seq<Byte>) {
    i <= |widths| == |values| && all == m + WordsCodec(widths[i..]).enc(values[i..])
  }

  lemma RowUnwritten(widths: seq<nat>, values: seq<nat>, m: seq<Byte>)
    requires |widths| == |values|
    ensures RowLeft(widths, values, 0, m, m + WordsCodec(widths).enc(values))
  {
    hide WordsCodec;
    assert widths[0..] == widths && values[0..] == values;
  }

  lemma RowWritten(widths: seq<nat>, values: seq<nat>, i: nat, m: seq<Byte>, all: seq<Byte>)
    requires RowLeft(widths, values, i, m, all) && i == |widths|
    ensures m == all
  {
    assert widths[i..] == [] && values[i..] == [];
  }

  lemma RowNext(widths: seq<nat>, values: seq<nat>, i: nat, m: seq<Byte>, all: seq<Byte>)
    requires RowLeft(widths, values, i, m, all) && i < |widths|
    ensures RowLeft(widths, values, i + 1, m + LittleEndian(values[i], widths[i]), all)
  {
    var ws, vs := widths[i..], values[i..];
    RowEnc(ws, vs);
    hide WordsCodec, LittleEndian;
    assert ws[1..] == widths[i + 1..] && vs[1..] == values[i + 1..];
    Appended(m, LittleEndian(values[i], widths[i]), WordsCodec(ws[1..]).enc(vs[1..]));
  }

  lemma RowEnc(widths: seq<nat>, values: seq<nat>)
    requires widths != [] && values != []
    ensures WordsCodec(widths).enc(values) == LittleEndian(values[0], widths[0]) + WordsCodec(widths[1..]).enc(values[1..])
  {
    hide LittleEndian, Pair, Pow, Variant;
    var rest := WordsCodec(widths[1..]);
    VariantShape(Pair(WholeCodec(widths[0]), rest), Cons, Uncons, values);
    PairShape(WholeCodec(widths[0]), rest);
  }

  method WriteField(v: nat, width: nat, ghost i: nat, w: WriteView, ghost widths: seq<nat>, ghost values: seq<nat>, ghost all: seq<Byte>)
    requires RowLeft(widths, values, i, w.m, all) && i < |widths| && i < |values| && widths[i] == width && values[i] == v
    modifies w
    ensures RowLeft(widths, values, i + 1, w.m, all)
  {
    hide RowLeft, LittleEndian;
    RowNext(widths, values, i, w.m, all);
    WriteWord(v, width, w);
  }

  method WriteHead(c: GasConfig, w: WriteView)
    modifies w
    ensures w.m == old(w.m) + WordsCodec(HeadWidths()).enc(HeadWords(c))
  {
    hide WordsCodec, RowLeft, Pow, HeadWidths, TailWidths;
    FieldSizes();
    ghost var W, V, all := HeadWidths(), HeadWords(c), w.m + WordsCodec(HeadWidths()).enc(HeadWords(c));
    RowUnwritten(W, V, w.m);
    WriteField(c.version, 1, 0, w, W, V, all);
    WriteField(c.maxNameLength, 1, 1, w, W, V, all);
    WriteField(c.maxTokenSymbolLength, 1, 2, w, W, V, all);
    WriteField(c.feeShift, 1, 3, w, W, V, all);
    WriteField(c.maxStructureSize, 4, 4, w, W, V, all);
    WriteField(c.feeMultiplier, 8, 5, w, W, V, all);
    WriteField(c.gasTokenId, 8, 6, w, W, V, all);
    WriteField(c.dataTokenId, 8, 7, w, W, V, all);
    WriteField(c.minimumGasOffer, 8, 8, w, W, V, all);
    WriteField(c.dataEscrowPerRow, 8, 9, w, W, V, all);
    WriteField(c.gasFeeTransfer, 8, 10, w, W, V, all);
    WriteField(c.gasFeeQuery, 8, 11, w, W, V, all);
    WriteField(c.gasFeeCreateTokenBase, 8, 12, w, W, V, all);
    WriteField(c.gasFeeCreateTokenSymbol, 8, 13, w, W, V, all);
    WriteField(c.gasFeeCreateTokenSeries, 8, 14, w, W, V, all);
    WriteField(c.gasFeePerByte, 8, 15, w, W, V, all);
    WriteField(c.gasFeeRegisterName, 8, 16, w, W, V, all);
    WriteField(c.gasBurnRatioMul, 8, 17, w, W, V, all);
    WriteField(c.gasBurnRatioShift, 1, 18, w, W, V, all);
    RowWritten(W, V, 19, w.m, all);
  }

  method WriteTail(c: GasConfig, w: WriteView)
    modifies w
    ensures w.m == old(w.m) + WordsCodec(TailWidths()).enc(TailWords(c))
  {
    hide WordsCodec, RowLeft, Pow, HeadWidths, TailWidths;
    FieldSizes();
    ghost var W, V, all := TailWidths(), TailWords(c), w.m + WordsCodec(TailWidths()).enc(TailWords(c));
    RowUnwritten(W, V, w.m);
    WriteField(c.minimumGasBill, 8, 0, w, W, V, all);
    WriteField(c.gasProducerRatioMul, 8, 1, w, W, V, all);
    WriteField(c.gasProducerRatioShift, 1, 2, w, W, V, all);
    WriteField(c.gasDappRatioMul, 8, 3, w, W, V, all);
    WriteField(c.gasDappRatioShift, 1, 4, w, W, V, all);
    WriteField(c.policyFeeCreateTokenBase, 8, 5, w, W, V, all);
    WriteField(c.policyFeeCreateTokenSymbol, 8, 6, w, W, V, all);
    WriteField(c.policyFeeCreateTokenSeries, 8, 7, w, W, V, all);
    WriteField(c.policyFeeRegisterName, 8, 8, w, W, V, all);
    WriteField(c.legacyDataEscrowPerRow, 8, 9, w, W, V, all);
    RowWritten(W, V, 10, w.m, all);
  }

  /** A version 0 image ends after the head. */
  method WriteGasConfig(c: GasConfig, w: WriteView)
    modifies w
    ensures w.m == old(w.m) + GasConfigCodec().enc(c)
  {
    hide WordsCodec, HeadWords, TailWords, TailCodec;
    HeadVersion(c);
    ConfigImage(c, w.m);
    WriteHead(c, w);
    if c.version == 0 {
      return;
    }
    WriteTail(c, w);
  }

  lemma ConfigImage(c: GasConfig, m: seq<Byte>)
    ensures m + GasConfigCodec().enc(c) ==
      if c.version == 0 then m + WordsCodec(HeadWidths()).enc(HeadWords(c))
      else m + WordsCodec(HeadWidths()).enc(HeadWords(c)) + WordsCodec(TailWidths()).enc(TailWords(c))
  {
    hide WordsCodec, HeadWords, TailWords, HeadWidths, TailWidths, Chain, Struct, ToConfig;
    HeadVersion(c);
    StructShape(ConfigParts(), ToConfig, OfConfig);
    ChainShape(WordsCodec(HeadWidths()), (h: seq<nat>) => TailCodec(h), 0);
    var head, tail := WordsCodec(HeadWidths()).enc(HeadWords(c)), TailCodec(HeadWords(c)).enc(TailWords(c));
    Appended(m, head, tail);
    if c.version == 0 { assert m + head + [] == m + head; }
  }

  /** A configuration written and read back, on the views themselves. */
  method WriteThenRead(c: GasConfig) returns (out: Option<GasConfig>)
    requires TailClear(c)
    ensures out == Some(c)
  {
    hide GasConfigCodec, TailClear;
    var w := new WriteView();
    WriteGasConfig(c, w);
    ConfigReadsBack(c, []);
    assert GasConfigCodec().enc(c) + [] == w.m;
    var r := new ReadView(w.m, false);
    out := ReadGasConfig(r);
  }

  // ---- the layout ---------------------------------------------------------------------------

  /** Numbers of the given sizes in little-endian bytes, one after another. */
  function Fields(fields: seq<(nat, nat)>): seq<Byte> {
    if fields == [] then [] else LittleEndian(fields[0].0, fields[0].1) + Fields(fields[1..])
  }

  lemma {:induction false} WordsAreFields(widths: seq<nat>, v: seq<nat>, fields: seq<(nat, nat)>)
    requires |v| == |widths| == |fields| && forall i :: 0 <= i < |v| ==> fields[i] == (v[i], widths[i])
    ensures WordsCodec(widths).enc(v) == Fields(fields)
  {
    hide LittleEndian, Pow;
    if widths != [] {
      WordsAreFields(widths[1..], v[1..], fields[1..]);
      FirstWord(widths, v);
    }
  }

  lemma FirstWord(widths: seq<nat>, v: seq<nat>)
    requires widths != [] && v != []
    ensures WordsCodec(widths).enc(v) == LittleEndian(v[0], widths[0]) + WordsCodec(widths[1..]).enc(v[1..])
  {
    hide LittleEndian, WholeCodec, Variant, Pair;
    var rest := WordsCodec(widths[1..]);
    VariantShape(Pair(WholeCodec(widths[0]), rest), Cons, Uncons, v);
    PairImage(WholeCodec(widths[0]), rest, v[0], v[1..]);
    WholeImage(widths[0], v[0]);
  }

  lemma PairImage<A, B>(a: Codec<A>, b: Codec<B>, x: A, y: B)
    ensures Pair(a, b).enc((x, y)) == a.enc(x) + b.enc(y)
  {
  }

  lemma WholeImage(width: nat, v: nat)
    ensures WholeCodec(width).enc(v) == LittleEndian(v, width)
  {
    hide LittleEndian;
  }

  lemma ConfigIs(c: GasConfig)
    ensures GasConfigCodec().enc(c) ==
      WordsCodec(HeadWidths()).enc(HeadWords(c)) + if c.version == 0 then [] else WordsCodec(TailWidths()).enc(TailWords(c))
  {
    hide WordsCodec, HeadWords, TailWords, ToConfig, Chain, Struct;
    HeadVersion(c);
    StructShape(ConfigParts(), ToConfig, OfConfig);
    ChainShape(WordsCodec(HeadWidths()), (h: seq<nat>) => TailCodec(h), 0);
  }

  /** The fields in their order and sizes; those behind the burn ratio from version 1 on. */
  lemma ConfigLayout(c: GasConfig)
    ensures GasConfigCodec().enc(c) ==
      Fields([(c.version, 1), (c.maxNameLength, 1), (c.maxTokenSymbolLength, 1), (c.feeShift, 1), (c.maxStructureSize, 4),
              (c.feeMultiplier, 8), (c.gasTokenId, 8), (c.dataTokenId, 8), (c.minimumGasOffer, 8), (c.dataEscrowPerRow, 8),
              (c.gasFeeTransfer, 8), (c.gasFeeQuery, 8), (c.gasFeeCreateTokenBase, 8), (c.gasFeeCreateTokenSymbol, 8),
              (c.gasFeeCreateTokenSeries, 8), (c.gasFeePerByte, 8), (c.gasFeeRegisterName, 8), (c.gasBurnRatioMul, 8),
              (c.gasBurnRatioShift, 1)]) +
      if c.version == 0 then []
      else
        Fields([(c.minimumGasBill, 8), (c.gasProducerRatioMul, 8), (c.gasProducerRatioShift, 1), (c.gasDappRatioMul, 8), (c.gasDappRatioShift, 1),
                (c.policyFeeCreateTokenBase, 8), (c.policyFeeCreateTokenSymbol, 8), (c.policyFeeCreateTokenSeries, 8),
                (c.policyFeeRegisterName, 8), (c.legacyDataEscrowPerRow, 8)])
  {
    hide WordsCodec, Fields, GasConfigCodec;
    ConfigIs(c);
    WordsAreFields(HeadWidths(), HeadWords(c),
      [(c.version, 1), (c.maxNameLength, 1), (c.maxTokenSymbolLength, 1), (c.feeShift, 1), (c.maxStructureSize, 4),
       (c.feeMultiplier, 8), (c.gasTokenId, 8), (c.dataTokenId, 8), (c.minimumGasOffer, 8), (c.dataEscrowPerRow, 8),
       (c.gasFeeTransfer, 8), (c.gasFeeQuery, 8), (c.gasFeeCreateTokenBase, 8), (c.gasFeeCreateTokenSymbol, 8),
       (c.gasFeeCreateTokenSeries, 8), (c.gasFeePerByte, 8), (c.gasFeeRegisterName, 8), (c.gasBurnRatioMul, 8),
       (c.gasBurnRatioShift, 1)]);
    WordsAreFields(TailWidths(), TailWords(c),
      [(c.minimumGasBill, 8), (c.gasProducerRatioMul, 8), (c.gasProducerRatioShift, 1), (c.gasDappRatioMul, 8), (c.gasDappRatioShift, 1),
       (c.policyFeeCreateTokenBase, 8), (c.policyFeeCreateTokenSymbol, 8), (c.policyFeeCreateTokenSeries, 8),
       (c.policyFeeRegisterName, 8), (c.legacyDataEscrowPerRow, 8)]);
  }
}
