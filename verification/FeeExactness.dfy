/** Seven boolean facts about chain state decide part of a quote. Each has a costlier reading. This
    module shows when moving facts to their costlier reading never lowers a quote, which is what lets
    two probes (every fact cheap, every fact as quoted) stand for every assignment in between. */
module FeeExactness {
  import opened Words64
  import opened GasConfigs
  import opened FeeModel
  import opened FeeEstimator
  import opened FeeSettlement
  import opened Wrappers
  import opened Positional

  /** Each fact of f at the reading of g or at a cheaper one. */
  predicate FactsBelow(f: StateFacts, g: StateFacts) {
    && (g.recipientHoldsToken ==> f.recipientHoldsToken) && (g.tokenBurnedBefore ==> f.tokenBurnedBefore)
    && (g.supplyRowExists ==> f.supplyRowExists) && (f.bigFungible ==> g.bigFungible)
    && (f.duplicatedSeries ==> g.duplicatedSeries) && (f.romHasMetaId ==> g.romHasMetaId)
    && (f.seriesHasMetaId ==> g.seriesHasMetaId)
  }

  /** The same operation, read with no costlier facts. */
  predicate Cheaper(p: NativeFeePart, q: NativeFeePart) {
    p == q.(params := q.params.(facts := p.params.facts)) && FactsBelow(p.params.facts, q.params.facts)
  }

  predicate AllCheaper(ps: seq<NativeFeePart>, qs: seq<NativeFeePart>) {
    |ps| == |qs| && forall i :: 0 <= i < |ps| ==> Cheaper(ps[i], qs[i])
  }

  /** Everything that is billed or escrowed grows; the rows given back may grow too. */
  predicate Below(a: Charges, b: Charges) {
    a.work <= b.work && a.policy == b.policy && a.result <= b.result && a.rows <= b.rows && a.deleted <= b.deleted
  }

  // ---- one operation ------------------------------------------------------------------------

  lemma {:induction false} InstanceRowsMono(a: NativeFeeParams, b: NativeFeeParams, n: nat, canonical: bool)
    requires b.SizesFit() && a == b.(facts := a.facts) && (a.facts.romHasMetaId ==> b.facts.romHasMetaId) && n <= b.count
    ensures InstanceRows(a, n, canonical) <= InstanceRows(b, n, canonical)
    ensures a.facts.romHasMetaId == b.facts.romHasMetaId || canonical ==> InstanceRows(a, n, canonical) == InstanceRows(b, n, canonical)
    ensures !canonical ==> InstanceRows(a, n, canonical) >= 3 * n
  {
    hide RowQuanta, NativeFeeParams.RomSizeAt, NativeFeeParams.RamSizeAt;
    if n > 0 {
      InstanceRowsMono(a, b, n - 1, canonical);
      InstanceMono(a, b, n - 1, canonical);
    }
  }

  lemma InstanceMono(a: NativeFeeParams, b: NativeFeeParams, i: nat, canonical: bool)
    requires b.SizesFit() && a == b.(facts := a.facts) && (a.facts.romHasMetaId ==> b.facts.romHasMetaId) && i < b.count
    ensures InstanceQuanta(a, i, canonical) <= InstanceQuanta(b, i, canonical)
    ensures a.facts.romHasMetaId == b.facts.romHasMetaId || canonical ==> InstanceQuanta(a, i, canonical) == InstanceQuanta(b, i, canonical)
    ensures !canonical ==> InstanceQuanta(a, i, canonical) >= 3
  {
    assert a.RomSizeAt(i) == b.RomSizeAt(i) && a.RamSizeAt(i) == b.RamSizeAt(i);
  }

  lemma MintWorkMono(a: NativeFeeParams, b: NativeFeeParams, config: GasConfig)
    requires a == b.(facts := a.facts) && FactsBelow(a.facts, b.facts)
    ensures MintWork(a, config) <= MintWork(b, config)
  {
    var t, q: nat := config.gasFeeTransfer, config.gasFeeQuery;
    assert Product(q, MintQueries(a)) <= Product(q, MintQueries(b));
    Grow(t + Product(q, MintQueries(a)), t + Product(q, MintQueries(b)), a.count);
  }

  lemma MintBelow(a: NativeFeeParams, b: NativeFeeParams, config: GasConfig, canonical: bool)
    requires b.SizesFit() && a == b.(facts := a.facts) && FactsBelow(a.facts, b.facts) && InstanceRows(a, a.count, canonical) <= InstanceRows(b, b.count, canonical)
    ensures Below(MintCharges(a, config, canonical), MintCharges(b, config, canonical))
    ensures MintCharges(a, config, canonical).deleted == MintCharges(b, config, canonical).deleted
  {
    hide Product, InstanceRows, MintWork, FreeToken;
    MintWorkMono(a, b, config);
  }

  lemma CreationSame(a: NativeFeeParams, b: NativeFeeParams, config: GasConfig)
    requires a == b.(facts := a.facts)
    ensures CreationCharges(a, config) == CreationCharges(b, config)
  {
  }

  lemma BurnBelow(a: NativeFeeParams, b: NativeFeeParams, config: GasConfig)
    requires b.SizesFit() && a == b.(facts := a.facts) && FactsBelow(a.facts, b.facts) && InstanceRows(a, a.count, false) <= InstanceRows(b, b.count, false)
    ensures Below(BurnCharges(a, config), BurnCharges(b, config))
    ensures InstanceRows(a, a.count, false) == InstanceRows(b, b.count, false) ==> BurnCharges(a, config).deleted == BurnCharges(b, config).deleted
  {
    hide Product, InstanceRows, ReturnCharges, FreeToken;
  }

  /** A costlier reading never lowers what an operation is billed and escrowed for, and changes the
      rows it deletes only in an NFT burn. */
  lemma PartMonotone(p: NativeFeePart, q: NativeFeePart, config: GasConfig)
    requires Cheaper(p, q) && q.params.SizesFit()
    ensures p.params.SizesFit()
    ensures Accepted(q, config) ==> Accepted(p, config)
    ensures Below(PartCharges(p, config), PartCharges(q, config))
    ensures q.kind != BurnNonFungible || p.params.facts.romHasMetaId == q.params.facts.romHasMetaId ==>
      PartCharges(p, config).deleted == PartCharges(q, config).deleted
  {
    hide Product, InstanceRows, RowQuanta, MintCharges, BurnCharges, CreationCharges, Halved, LengthPriceable, ReturnsAccepted, FreeToken;
    var a, b := p.params, q.params;
    match q.kind
    case MintNonFungible =>
      InstanceRowsMono(a, b, b.count, false);
      MintBelow(a, b, config, false);
    case MintPhantasmaNonFungible =>
      InstanceRowsMono(a, b, b.count, true);
      MintBelow(a, b, config, true);
    case BurnNonFungible =>
      InstanceRowsMono(a, b, b.count, false);
      BurnBelow(a, b, config);
    case CreateToken =>
      CreationSame(a, b, config);
    case _ =>
  }

  // ---- batches ------------------------------------------------------------------------------

  lemma {:induction false} BatchMonotone(ps: seq<NativeFeePart>, qs: seq<NativeFeePart>, config: GasConfig)
    requires AllCheaper(ps, qs) && AllFit(qs)
    ensures AllFit(ps) && (AllAccepted(qs, config) ==> AllAccepted(ps, config))
    ensures Below(BatchCharges(ps, config), BatchCharges(qs, config))
  {
    hide PartCharges, Cheaper, Accepted, NativeFeeParams.SizesFit;
    forall i | 0 <= i < |ps|
      ensures ps[i].params.SizesFit() && (Accepted(qs[i], config) ==> Accepted(ps[i], config))
    {
      PartMonotone(ps[i], qs[i], config);
    }
    if ps != [] {
      var n := |ps| - 1;
      BatchMonotone(ps[..n], qs[..n], config);
      PartMonotone(ps[n], qs[n], config);
    }
  }

  /** An NFT burn read without a meta-id row. */
  function Forget(part: NativeFeePart): NativeFeePart {
    if part.kind == BurnNonFungible then part.(params := part.params.(facts := part.params.facts.(romHasMetaId := false))) else part
  }

  function ForgetAll(parts: seq<NativeFeePart>): (r: seq<NativeFeePart>)
    ensures |r| == |parts| && forall i :: 0 <= i < |parts| ==> r[i] == Forget(parts[i])
  {
    if parts == [] then [] else ForgetAll(parts[..|parts| - 1]) + [Forget(parts[|parts| - 1])]
  }

  /** Forgetting the meta-id rows of a burn moves nothing but the rows it deletes, and brings those to
      the least any reading of the facts gives. */
  lemma ForgetIsFloor(p: NativeFeePart, q: NativeFeePart, config: GasConfig)
    requires Cheaper(p, q) && q.params.SizesFit()
    ensures p.params.SizesFit() && Forget(q).params.SizesFit() && Cheaper(Forget(q), q)
    ensures PartCharges(Forget(q), config) == PartCharges(q, config).(deleted := PartCharges(Forget(q), config).deleted)
    ensures PartCharges(Forget(q), config).deleted == PartCharges(Forget(p), config).deleted <= PartCharges(p, config).deleted
  {
    hide Product, RowQuanta, ReturnCharges, CreationPrice, MintWork, Halved, FreeToken, InstanceRows;
    if q.kind == BurnNonFungible {
      InstanceRowsMono(Forget(p).params, p.params, p.params.count, false);
      InstanceRowsMono(Forget(p).params, Forget(q).params, p.params.count, false);
    } else {
      PartMonotone(p, q, config);
    }
  }

  lemma {:induction false} ForgetBatch(ps: seq<NativeFeePart>, qs: seq<NativeFeePart>, config: GasConfig)
    requires AllCheaper(ps, qs) && AllFit(qs)
    ensures AllFit(ps) && AllFit(ForgetAll(qs)) && AllFit(ForgetAll(ps)) && AllCheaper(ForgetAll(qs), qs)
    ensures BatchCharges(ForgetAll(qs), config) == BatchCharges(qs, config).(deleted := BatchCharges(ForgetAll(qs), config).deleted)
    ensures BatchCharges(ForgetAll(qs), config).deleted == BatchCharges(ForgetAll(ps), config).deleted <= BatchCharges(ps, config).deleted
  {
    hide PartCharges, Cheaper, Forget, NativeFeeParams.SizesFit;
    forall i | 0 <= i < |ps|
      ensures ps[i].params.SizesFit() && Forget(qs[i]).params.SizesFit() && Forget(ps[i]).params.SizesFit() && Cheaper(Forget(qs[i]), qs[i])
    {
      ForgetIsFloor(ps[i], qs[i], config);
      CheaperSelf(ps[i]);
      ForgetIsFloor(ps[i], ps[i], config);
    }
    if ps != [] {
      var n := |ps| - 1;
      ForgetBatch(ps[..n], qs[..n], config);
      ForgetIsFloor(ps[n], qs[n], config);
    }
  }

  lemma CheaperSelf(p: NativeFeePart)
    ensures Cheaper(p, p)
  {
  }

  lemma AllCheaperSelf(ps: seq<NativeFeePart>)
    ensures AllCheaper(ps, ps)
  {
  }

  // ---- when the net storage never falls -----------------------------------------------------

  /** The meta-id rows of the burns move nothing, or the deleted rows cover the new ones without
      them. Deleted rows beyond the new ones are not billed. */
  predicate Covered(parts: seq<NativeFeePart>, config: GasConfig)
    requires AllFit(parts) && AllFit(ForgetAll(parts))
  {
    || BatchCharges(ForgetAll(parts), config).deleted == BatchCharges(parts, config).deleted
    || BatchCharges(parts, config).rows <= BatchCharges(ForgetAll(parts), config).deleted
  }

  lemma NetMonotone(ps: seq<NativeFeePart>, qs: seq<NativeFeePart>, config: GasConfig)
    requires AllCheaper(ps, qs) && AllFit(qs) && AllFit(ForgetAll(qs)) && Covered(qs, config)
    ensures AllFit(ps) && AllFit(ForgetAll(ps)) && Covered(ps, config)
    ensures Net(BatchCharges(ps, config)) <= Net(BatchCharges(qs, config))
  {
    hide BatchCharges, AllFit, AllCheaper, ForgetAll;
    BatchMonotone(ps, qs, config);
    ForgetBatch(ps, qs, config);
  }

  /** Exactly when no cheaper reading of the facts bills more net storage. */
  lemma NetMonotoneExactly(qs: seq<NativeFeePart>, config: GasConfig)
    requires AllFit(qs) && AllFit(ForgetAll(qs))
    ensures Covered(qs, config) <==>
      forall ps :: AllCheaper(ps, qs) && AllFit(ps) ==> Net(BatchCharges(ps, config)) <= Net(BatchCharges(qs, config))
  {
    hide BatchCharges, AllFit, AllCheaper, ForgetAll;
    if Covered(qs, config) {
      forall ps | AllCheaper(ps, qs) && AllFit(ps)
        ensures Net(BatchCharges(ps, config)) <= Net(BatchCharges(qs, config))
      {
        NetMonotone(ps, qs, config);
      }
    } else {
      AllCheaperSelf(qs);
      ForgetBatch(qs, qs, config);
      assert Net(BatchCharges(ForgetAll(qs), config)) > Net(BatchCharges(qs, config));
    }
  }

  lemma {:induction false} WithoutBurnsCovered(parts: seq<NativeFeePart>, config: GasConfig)
    requires AllFit(parts) && forall i :: 0 <= i < |parts| ==> parts[i].kind != BurnNonFungible
    ensures ForgetAll(parts) == parts && Covered(parts, config)
  {
    assert ForgetAll(parts) == parts;
  }

  /** A message of burns alone is covered, unless a returned NFT token is said to hold 2^32 - 1
      instances, whose deleted lookup rows are counted as none. */
  lemma {:induction false} BurnsAloneCovered(parts: seq<NativeFeePart>, config: GasConfig)
    requires AllFit(parts) && AllFit(ForgetAll(parts)) && AllAccepted(parts, config)
    requires forall i :: 0 <= i < |parts| ==> parts[i].kind == BurnNonFungible
    requires forall i, k :: 0 <= i < |parts| && 0 <= k < |parts[i].params.infusions| ==> Countable(parts[i].params.infusions[k])
    ensures BatchCharges(parts, config).rows <= BatchCharges(ForgetAll(parts), config).deleted && Covered(parts, config)
  {
    hide PartCharges, Accepted, NativeFeeParams.SizesFit;
    if parts != [] {
      var n := |parts| - 1;
      BurnsAloneCovered(parts[..n], config);
      BurnNetsToZero(parts[n], config);
    }
  }

  lemma BurnNetsToZero(part: NativeFeePart, config: GasConfig)
    requires part.params.SizesFit() && Accepted(part, config) && part.kind == BurnNonFungible
    requires forall k :: 0 <= k < |part.params.infusions| ==> Countable(part.params.infusions[k])
    ensures Forget(part).params.SizesFit() && PartCharges(part, config).rows <= PartCharges(Forget(part), config).deleted
  {
    hide InstanceRows, ReturnCharges, Product;
    ReturnsNetToZero(part.params.infusions, config);
    InstanceRowsMono(Forget(part).params, part.params, part.params.count, false);
  }

  predicate Countable(asset: InfusedAsset) {
    asset.nonFungible ==> asset.instanceCount < 0xFFFF_FFFF
  }

  /** A returned asset deletes at least the rows it creates, except at the one count for which
      1 + instanceCount leaves 32 bits. */
  lemma ReturnedAssetNets(asset: InfusedAsset, config: GasConfig)
    ensures ReturnCharge(asset, config).rows <= ReturnCharge(asset, config).deleted <==> Countable(asset)
  {
    if asset.nonFungible && !Countable(asset) {
      assert (1 + (asset.instanceCount as nat)) % 0x1_0000_0000 == 0;
    }
  }

  lemma {:induction false} ReturnsNetToZero(assets: seq<InfusedAsset>, config: GasConfig)
    requires forall k :: 0 <= k < |assets| ==> Countable(assets[k])
    ensures ReturnCharges(assets, config).rows <= ReturnCharges(assets, config).deleted
  {
    hide Product;
    if assets != [] {
      ReturnsNetToZero(assets[..|assets| - 1], config);
      ReturnedAssetNets(assets[|assets| - 1], config);
    }
  }

  // ---- quotes -------------------------------------------------------------------------------

  lemma ScaleMono(x: nat, y: nat, config: GasConfig)
    requires x <= y
    ensures MulShift(Sat(x), config.feeMultiplier, config.feeShift) <= MulShift(Sat(y), config.feeMultiplier, config.feeShift)
  {
    SatMono(x, y);
    if config.feeShift < 64 {
      MulShiftMono(Sat(x), Sat(y), config.feeMultiplier, config.feeShift);
    }
  }

  /** What a wallet reads: the bill, the gas offer and the escrow ceiling. */
  predicate QuoteBelow(a: NativeFeeEstimate, b: NativeFeeEstimate) {
    a.expectedGasBill <= b.expectedGasBill && a.maxGas <= b.maxGas && a.maxData <= b.maxData
  }

  predicate SameQuote(a: NativeFeeEstimate, b: NativeFeeEstimate) {
    a.expectedGasBill == b.expectedGasBill && a.maxGas == b.maxGas && a.maxData == b.maxData
  }

  /** The settlement is monotone in everything it is billed for, through scaling, saturation and
      both floors, in both gas models. */
  lemma PricedMonotone(a: Charges, b: Charges, config: GasConfig, transaction: TransactionParams)
    requires Below(a, b) && Net(a) <= Net(b) && NoWrap(b)
    ensures NoWrap(a) && QuoteBelow(Priced(a, config, transaction), Priced(b, config, transaction))
  {
    hide MulShift, Sat, Product;
    ProductMono(a.rows, b.rows, config.dataEscrowPerRow);
    if config.HasGasModelV2() {
      ScaleMono(GasUnits(a, transaction.envelopeBytes), GasUnits(b, transaction.envelopeBytes), config);
      SatMono(MulShift(Sat(GasUnits(a, transaction.envelopeBytes)), config.feeMultiplier, config.feeShift) as nat + a.policy,
              MulShift(Sat(GasUnits(b, transaction.envelopeBytes)), config.feeMultiplier, config.feeShift) as nat + b.policy);
    } else {
      OldModelMonotone(a, b, config, transaction.payloadBytes);
    }
  }

  lemma ProductMono(x: nat, y: nat, n: U64)
    requires x <= y
    ensures Product(x, n) <= Product(y, n) && Sat(Product(x, n)) <= Sat(Product(y, n))
  {
    Grow(x, y, n);
  }

  lemma OldModelMonotone(a: Charges, b: Charges, config: GasConfig, payload: nat)
    requires Below(a, b) && Net(a) <= Net(b)
    ensures BillV1(a, config, payload) <= BillV1(b, config, payload)
    ensures OfferV1(a, config, payload) <= OfferV1(b, config, payload)
  {
    hide MulShift, Sat, Product;
    var x, y := BlockData(a, payload), BlockData(b, payload);
    ScaleMono(a.work, b.work, config);
    ProductMono(x, y, config.gasFeePerByte);
    ProductMono(if x > 1024 then x else 1024, if y > 1024 then y else 1024, config.gasFeePerByte);
    SatMono((ScaledWork(a, config) as nat) + Product(x, config.gasFeePerByte), (ScaledWork(b, config) as nat) + Product(y, config.gasFeePerByte));
    SatMono((config.minimumGasOffer as nat) * 2 + ScaledWork(a, config) + Product(if x > 1024 then x else 1024, config.gasFeePerByte),
            (config.minimumGasOffer as nat) * 2 + ScaledWork(b, config) + Product(if y > 1024 then y else 1024, config.gasFeePerByte));
  }

  /** The quote the calculator answers for a batch. */
  function Quote(parts: seq<NativeFeePart>, config: GasConfig, transaction: TransactionParams): Option<NativeFeeEstimate>
    requires AllFit(parts)
  {
    if AllAccepted(parts, config) then Settle(Narrow(BatchCharges(parts, config)), config, transaction) else None
  }

  /** Costlier facts never lower the bill, the offer or the ceiling of a covered batch, whatever the
      prices and the gas model, as long as rows and result bytes do not wrap. */
  lemma QuoteMonotone(ps: seq<NativeFeePart>, qs: seq<NativeFeePart>, config: GasConfig, transaction: TransactionParams)
    requires AllCheaper(ps, qs) && AllFit(qs) && AllFit(ForgetAll(qs)) && Covered(qs, config)
    requires NoWrap(BatchCharges(qs, config)) && Quote(qs, config, transaction).Some?
    ensures AllFit(ps) && AllFit(ForgetAll(ps)) && Covered(ps, config)
    ensures NoWrap(BatchCharges(ps, config)) && Quote(ps, config, transaction).Some?
    ensures QuoteBelow(Quote(ps, config, transaction).value, Quote(qs, config, transaction).value)
  {
    hide BatchCharges, AllFit, AllAccepted, AllCheaper, ForgetAll, Covered, Settle, Narrow, Priced, Net;
    BatchMonotone(ps, qs, config);
    NetMonotone(ps, qs, config);
    var a, b := BatchCharges(ps, config), BatchCharges(qs, config);
    PricedMonotone(a, b, config, transaction);
    SettleIsPriced(a, config, transaction);
    SettleIsPriced(b, config, transaction);
  }

  /** Two probes decide: when the cheapest and the costliest reading of the facts give the same quote,
      every assignment of the facts in between gives that quote. */
  lemma ProbesDecide(lo: seq<NativeFeePart>, mid: seq<NativeFeePart>, hi: seq<NativeFeePart>, config: GasConfig, transaction: TransactionParams)
    requires AllCheaper(lo, mid) && AllCheaper(mid, hi) && AllFit(hi) && AllFit(ForgetAll(hi)) && Covered(hi, config)
    requires NoWrap(BatchCharges(hi, config)) && Quote(hi, config, transaction).Some?
    ensures AllFit(lo) && AllFit(mid) && Quote(lo, config, transaction).Some? && Quote(mid, config, transaction).Some?
    ensures SameQuote(Quote(lo, config, transaction).value, Quote(hi, config, transaction).value) ==>
      SameQuote(Quote(mid, config, transaction).value, Quote(hi, config, transaction).value)
  {
    hide BatchCharges, AllFit, AllCheaper, ForgetAll, Covered, Quote;
    QuoteMonotone(mid, hi, config, transaction);
    QuoteMonotone(lo, mid, config, transaction);
  }

  /** Unscaled v2 prices above the floors: one gas unit is one unit of the bill. */
  predicate PlainPrices(c: Charges, config: GasConfig, envelope: U32) {
    && config.HasGasModelV2() && config.feeShift == 0 && config.feeMultiplier == 1
    && config.minimumGasBill <= GasUnits(c, envelope) + c.policy
    && GasUnits(c, envelope) + c.policy < 0x1_0000_0000_0000_0000
  }

  lemma PlainBill(c: Charges, config: GasConfig, envelope: U32)
    requires PlainPrices(c, config, envelope)
    ensures BillV2(c, config, envelope) == GasUnits(c, envelope) + c.policy
  {
    Unshifted(GasUnits(c, envelope));
  }

  /** Where units are billed one to one, the condition is exact: the bill of a batch is not below the
      bill of any cheaper reading if and only if the batch is covered. An uncovered burn is billed
      less at the costlier reading of romHasMetaId. */
  lemma BillMonotoneExactly(qs: seq<NativeFeePart>, config: GasConfig, envelope: U32)
    requires AllFit(qs) && AllFit(ForgetAll(qs))
    requires PlainPrices(BatchCharges(qs, config), config, envelope)
    requires PlainPrices(BatchCharges(ForgetAll(qs), config), config, envelope)
    ensures Covered(qs, config) <==>
      forall ps :: AllCheaper(ps, qs) && AllFit(ps) ==>
        BillV2(BatchCharges(ps, config), config, envelope) <= BillV2(BatchCharges(qs, config), config, envelope)
  {
    hide BatchCharges, AllFit, AllCheaper, ForgetAll, MulShift, Sat;
    if Covered(qs, config) {
      forall ps | AllCheaper(ps, qs) && AllFit(ps)
        ensures BillV2(BatchCharges(ps, config), config, envelope) <= BillV2(BatchCharges(qs, config), config, envelope)
      {
        NetMonotone(ps, qs, config);
        BatchMonotone(ps, qs, config);
        BillMono(BatchCharges(ps, config), BatchCharges(qs, config), config, envelope);
      }
    } else {
      AllCheaperSelf(qs);
      ForgetBatch(qs, qs, config);
      PlainBill(BatchCharges(qs, config), config, envelope);
      PlainBill(BatchCharges(ForgetAll(qs), config), config, envelope);
      assert BillV2(BatchCharges(ForgetAll(qs), config), config, envelope) > BillV2(BatchCharges(qs, config), config, envelope);
    }
  }

  lemma BillMono(a: Charges, b: Charges, config: GasConfig, envelope: nat)
    requires Below(a, b) && Net(a) <= Net(b)
    ensures BillV2(a, config, envelope) <= BillV2(b, config, envelope)
  {
    hide MulShift, Sat;
    ScaleMono(GasUnits(a, envelope), GasUnits(b, envelope), config);
    SatMono(MulShift(Sat(GasUnits(a, envelope)), config.feeMultiplier, config.feeShift) as nat + a.policy,
            MulShift(Sat(GasUnits(b, envelope)), config.feeMultiplier, config.feeShift) as nat + b.policy);
  }

  // ---- a batch two probes do not decide -----------------------------------------------------

  const EXAMPLE_CONFIG := GasConfig(1, 0, 0, 0, 0, 1, 1, 2, 0, 0, 0, 5, 0, 0, 0, 0, 0, 0, 0, 0, 0, 0, 0, 0, 0, 0, 0, 0, 0)

  /** Four instances minted into one series, without ROM or RAM. */
  function ExampleMinted(facts: StateFacts): NativeFeeParams {
    DEFAULT_PARAMS.(facts := facts, count := 4, tokenId := 7, romBytesPerInstance := Some([0, 0, 0, 0]),
                    ramBytesPerInstance := Some([0, 0, 0, 0]))
  }

  /** One instance burned that holds nothing. */
  function ExampleBurned(facts: StateFacts): NativeFeeParams {
    DEFAULT_PARAMS.(facts := facts, count := 1, tokenId := 7)
  }

  function ExampleBatch(minted: StateFacts, burned: StateFacts): seq<NativeFeePart> {
    [NativeFeePart(MintPhantasmaNonFungible, ExampleMinted(minted)), NativeFeePart(BurnNonFungible, ExampleBurned(burned))]
  }

  /** The rows two operations add to those of the four instances. */
  function ExampleRows(minted: StateFacts, burned: StateFacts): nat {
    Flag(!minted.recipientHoldsToken) + Flag(!minted.supplyRowExists) + Flag(!burned.tokenBurnedBefore) + Flag(!burned.supplyRowExists)
  }

  /** Unit prices, free transfers and queries at five units: a duplicated series costs the mint 25
      units more, and the meta-id row of the burn saves one quantum, which is 25 units. */
  lemma {:induction false} ExampleQuote(minted: StateFacts, burned: StateFacts, envelope: U32)
    requires 0 < envelope < 0x8000_0000
    ensures AllFit(ExampleBatch(minted, burned)) && AllAccepted(ExampleBatch(minted, burned), EXAMPLE_CONFIG)
    ensures
      var rows := 16 + ExampleRows(minted, burned);
      var bill := 50 + 25 * (envelope as int + 164 + rows - 3) + (if minted.duplicatedSeries then 25 else 0) - (if burned.romHasMetaId then 25 else 0);
      Settle(Narrow(BatchCharges(ExampleBatch(minted, burned), EXAMPLE_CONFIG)), EXAMPLE_CONFIG, TransactionParams(envelope, 0))
        == Some(NativeFeeEstimate(bill, 0, bill, rows, 3 + Flag(burned.romHasMetaId)))
  {
    hide Settle, Narrow, BatchCharges, ExampleMinted, ExampleBurned, MintCharges, BurnCharges;
    ExampleMint(minted);
    ExampleBurn(burned);
    TwoParts(NativeFeePart(MintPhantasmaNonFungible, ExampleMinted(minted)), NativeFeePart(BurnNonFungible, ExampleBurned(burned)), EXAMPLE_CONFIG);
    ExampleSettles(BatchCharges(ExampleBatch(minted, burned), EXAMPLE_CONFIG), 50 + (if minted.duplicatedSeries then 25 else 0),
                   16 + ExampleRows(minted, burned), 3 + Flag(burned.romHasMetaId), envelope);
  }

  lemma {:induction false} TwoParts(a: NativeFeePart, b: NativeFeePart, config: GasConfig)
    requires a.params.SizesFit() && b.params.SizesFit()
    ensures AllFit([a, b]) && BatchCharges([a, b], config) == Plus(PartCharges(a, config), PartCharges(b, config))
  {
    hide PartCharges;
    assert [a, b][..1] == [a];
    OnePart(a, config);
  }

  lemma ExampleSettles(c: Charges, work: nat, rows: nat, deleted: nat, envelope: U32)
    requires c == Charges(work, 0, 164, rows, deleted) && work < 100 && deleted <= rows <= 20 && 0 < envelope < 0x8000_0000
    ensures
      var bill := work + 25 * ((envelope as nat) + 164 + rows - deleted);
      Settle(Narrow(c), EXAMPLE_CONFIG, TransactionParams(envelope, 0)) == Some(NativeFeeEstimate(bill, 0, bill, rows, deleted))
  {
    hide Settle, Narrow, MulShift;
    SettleIsPriced(c, EXAMPLE_CONFIG, TransactionParams(envelope, 0));
    PlainBill(c, EXAMPLE_CONFIG, envelope);
  }

  lemma {:induction false} ExampleMint(facts: StateFacts)
    ensures ExampleMinted(facts).SizesFit() && Accepted(NativeFeePart(MintPhantasmaNonFungible, ExampleMinted(facts)), EXAMPLE_CONFIG)
    ensures MintCharges(ExampleMinted(facts), EXAMPLE_CONFIG, true) ==
      Charges(40 + (if facts.duplicatedSeries then 25 else 0), 0, 164, 16 + Flag(!facts.recipientHoldsToken) + Flag(!facts.supplyRowExists), 0)
  {
    var p := ExampleMinted(facts);
    assert InstanceQuanta(p, 0, true) == 4 && InstanceQuanta(p, 1, true) == 4 && InstanceQuanta(p, 2, true) == 4 && InstanceQuanta(p, 3, true) == 4;
    assert InstanceRows(p, 2, true) == 8;
    assert InstanceRows(p, 4, true) == 16;
  }

  lemma {:induction false} ExampleBurn(facts: StateFacts)
    ensures ExampleBurned(facts).SizesFit() && Accepted(NativeFeePart(BurnNonFungible, ExampleBurned(facts)), EXAMPLE_CONFIG)
    ensures BurnCharges(ExampleBurned(facts), EXAMPLE_CONFIG) ==
      Charges(10, 0, 0, Flag(!facts.tokenBurnedBefore) + Flag(!facts.supplyRowExists), 3 + Flag(facts.romHasMetaId))
  {
    hide BurnCharges;
    SmallBurn(ExampleBurned(facts), EXAMPLE_CONFIG);
  }

  /** One instance burned that holds nothing. */
  lemma {:induction false} SmallBurn(p: NativeFeeParams, config: GasConfig)
    requires p.SizesFit() && p.count == 1 && p.infusions == [] && p.romBytesPerInstance.None? && p.ramBytesPerInstance.None?
    requires p.romBytes == p.ramBytes == 0
    ensures BurnCharges(p, config) ==
      Charges(config.gasFeeTransfer + 2 * (config.gasFeeQuery as nat), 0, 0, BurntRow(p, config) + SupplyRow(p, config), 3 + Flag(p.facts.romHasMetaId))
  {
    NoRows(p, false);
    OneMoreInstance(p, 0, false);
  }
}
