/** What a settlement answers, in the words of the configuration alone, and quotes in numbers: bills that
    were measured on a chain, and one quote per gas model in which every price plays a part. */
module FeeQuotes {
  import opened Wrappers
  import opened Words64
  import opened Positional
  import opened GasConfigs
  import opened FeeModel
  import opened FeeEstimator
  import opened FeeSettlement
  import opened FeePrices

  // ---- the settlement -----------------------------------------------------------------------

  function Capped(x: nat): U64 {
    if x < 0x1_0000_0000_0000_0000 then x else 0xFFFF_FFFF_FFFF_FFFF
  }

  function Larger(x: U64, y: U64): U64 {
    if x < y then y else x
  }

  /** Units priced: the product with the multiplier, halved as often as the shift says; a shift of 64 or
      more leaves nothing. */
  function Scaled(units: nat, multiplier: U64, shift: U8): U64 {
    if shift >= 64 then 0 else Capped(OverPower(units * multiplier, shift))
  }

  lemma ScaledIs(units: U64, multiplier: U64, shift: U8)
    ensures MulShift(units, multiplier, shift) == Scaled(units, multiplier, shift)
  {
    hide Pow;
  }

  /** Rows that outnumber the deleted ones. */
  function Growth(t: OperationModel): nat {
    if t.newQuanta > t.deletedQuanta then (t.newQuanta as nat) - t.deletedQuanta else 0
  }

  /** Gas model v2: 25 units per byte of envelope, result and net storage on top of the work, scaled, plus the
      policy fee; no less than the minimum bill, and offered at no less than the minimum offer. */
  lemma SettledV2(t: OperationModel, c: GasConfig, tx: TransactionParams)
    requires c.version >= 1
    ensures tx.envelopeBytes == 0 ==> Settle(t, c, tx) == None
    ensures tx.envelopeBytes > 0 ==>
      var units := (t.workUnits as nat) + 25 * ((tx.envelopeBytes as nat) + Growth(t) + t.resultBytes);
      var bill := Larger(Capped((Scaled(Capped(units), c.feeMultiplier, c.feeShift) as nat) + t.policyFee), c.minimumGasBill);
      Settle(t, c, tx) == Some(NativeFeeEstimate(
        Larger(bill, c.minimumGasOffer), Capped((t.newQuanta as nat) * c.dataEscrowPerRow), bill, t.newQuanta, t.deletedQuanta))
  {
    hide MulShift, Scaled;
    if tx.envelopeBytes > 0 {
      UnitsOf(t.workUnits, tx.envelopeBytes, Growth(t), t.resultBytes);
      ScaledIs(Sat((t.workUnits as nat) + 25 * ((tx.envelopeBytes as nat) + Growth(t) + t.resultBytes)), c.feeMultiplier, c.feeShift);
    }
  }

  /** Gas model v1: the work scaled, plus the byte price of payload, result and net storage; offered with
      twice the minimum offer and at least 1024 bytes. There is no policy fee, no floor and no envelope. */
  lemma SettledV1(t: OperationModel, c: GasConfig, tx: TransactionParams)
    requires c.version == 0
    ensures
      var bytes := (tx.payloadBytes as nat) + t.resultBytes + Growth(t);
      var work: nat := Scaled(t.workUnits, c.feeMultiplier, c.feeShift);
      Settle(t, c, tx) == Some(NativeFeeEstimate(
        Capped(2 * (c.minimumGasOffer as nat) + work + (if bytes > 1024 then bytes else 1024) * c.gasFeePerByte),
        Capped((t.newQuanta as nat) * c.dataEscrowPerRow), Capped(work + bytes * c.gasFeePerByte), t.newQuanta, t.deletedQuanta))
  {
    hide MulShift, Scaled, Sat;
    ScaledIs(t.workUnits, c.feeMultiplier, c.feeShift);
    var bytes := (tx.payloadBytes as nat) + t.resultBytes + Growth(t);
    DataOf(tx.payloadBytes, t.resultBytes, Growth(t));
    SatProduct(Sat(bytes), bytes, c.gasFeePerByte);
    AllowanceOf(bytes, c.gasFeePerByte);
    var work := Scaled(t.workUnits, c.feeMultiplier, c.feeShift);
    SatAddSat(work, Product(bytes, c.gasFeePerByte));
    OfferOf(c.minimumGasOffer, work, Product(if bytes > 1024 then bytes else 1024, c.gasFeePerByte));
    CappedIs(2 * (c.minimumGasOffer as nat) + work + (if bytes > 1024 then bytes else 1024) * c.gasFeePerByte);
    CappedIs((t.newQuanta as nat) * c.dataEscrowPerRow);
    CappedIs((work as nat) + bytes * c.gasFeePerByte);
  }

  lemma CappedIs(x: nat)
    ensures Capped(x) == Sat(x)
  {
  }

  /** No other field of the configuration enters a settlement. */
  lemma SettlementIgnores(t: OperationModel, c: GasConfig, d: GasConfig, tx: TransactionParams)
    requires (c.version == 0 <==> d.version == 0) && c.feeMultiplier == d.feeMultiplier && c.feeShift == d.feeShift
    requires c.dataEscrowPerRow == d.dataEscrowPerRow && c.minimumGasOffer == d.minimumGasOffer
    requires c.version == 0 ==> c.gasFeePerByte == d.gasFeePerByte
    requires c.version != 0 ==> c.minimumGasBill == d.minimumGasBill
    ensures Settle(t, c, tx) == Settle(t, d, tx)
  {
    hide MulShift, Sat;
  }

  // ---- quotes in numbers --------------------------------------------------------------------

  /** The calculator answers this estimate for one operation. */
  predicate Quotes(kind: NativeFeeKind, p: NativeFeeParams, c: GasConfig, tx: TransactionParams, e: NativeFeeEstimate) {
    && p.SizesFit() && Accepted(NativeFeePart(kind, p), c)
    && Settle(Narrow(PartCharges(NativeFeePart(kind, p), c)), c, tx) == Some(e)
  }

  /** Unshifted prices of charges that saturate nothing. */
  lemma SmallV2(x: Charges, c: GasConfig, envelope: U32)
    requires c.version >= 1 && c.feeShift == 0 && envelope > 0
    requires x.work < 0x1_0000_0000_0000_0000 && x.result < 0x1_0000_0000 && x.rows < 0x1_0000_0000 && x.deleted < 0x1_0000_0000
    requires x.work + 25 * ((envelope as nat) + Net(x) + x.result) < 0x1_0000_0000_0000_0000
    requires (x.work + 25 * ((envelope as nat) + Net(x) + x.result)) * c.feeMultiplier + x.policy < 0x1_0000_0000_0000_0000
    requires x.rows * c.dataEscrowPerRow < 0x1_0000_0000_0000_0000
    ensures
      var bill := Larger((x.work + 25 * ((envelope as nat) + Net(x) + x.result)) * c.feeMultiplier + x.policy, c.minimumGasBill);
      Settle(Narrow(x), c, TransactionParams(envelope, 0)) ==
        Some(NativeFeeEstimate(Larger(bill, c.minimumGasOffer), x.rows * c.dataEscrowPerRow, bill, x.rows, x.deleted))
  {
    hide Settle, Scaled;
    var units := x.work + 25 * ((envelope as nat) + Net(x) + x.result);
    ProductNotNegative(units, c.feeMultiplier);
    assert Narrow(x) == OperationModel(x.work, x.policy, x.result, x.rows, x.deleted);
    SettledV2(Narrow(x), c, TransactionParams(envelope, 0));
    UnscaledIs(units, c.feeMultiplier);
  }

  lemma ProductNotNegative(x: nat, y: nat)
    ensures 0 <= x * y
  {
  }

  lemma UnscaledIs(units: nat, multiplier: U64)
    ensures Scaled(units, multiplier, 0) == Capped(units * multiplier)
  {
    Unshifted(units * multiplier);
  }

  // ---- measured bills -----------------------------------------------------------------------

  /** The configuration the bills below were measured under. */
  const LOCALNET := GasConfig(1, 255, 255, 0, 1048576, 10000, 1, 2, 10, 50000, 10, 10, 10000000000, 10000000000, 2500000000, 250000, 10000000000000, 1, 1, 10000000, 1, 2, 1, 3, 100000000000, 100000000000, 25000000000, 1000000000000, 2)

  /** Prices of the activation package, and those before it. */
  const PACKAGE := GasConfig(1, 32, 10, 0, 65536, 10000, 2, 1, 10, 200000, 10, 2, 10000000000, 10000000000, 2500000000, 250000, 10000000000000, 1, 0, 10000000, 0, 0, 0, 0, 100000000000000, 100000000000000, 25000000000000, 100000000000000000, 2)
  const LIVE := GasConfig(0, 32, 10, 0, 65536, 10000, 2, 1, 10, 2, 10, 2, 10000000000, 10000000000, 2500000000, 250000, 10000000000000, 1, 0, 0, 0, 0, 0, 0, 0, 0, 0, 0, 0)

  lemma Powers()
    ensures Pow(2, 1) == 2 && Pow(2, 3) == 8 && Pow(2, 6) == 64 && Pow(2, 7) == 128 && Pow(2, 11) == 2048 && Pow(2, 63) == 0x8000_0000_0000_0000
  {
    assert Pow(2, 3) == 8 && Pow(2, 6) == 64 && Pow(2, 7) == 128;
    assert Pow(2, 11) == 16 * Pow(2, 7);
    Pow32();
    PowAdd(2, 31, 32);
    assert Pow(2, 32) == 2 * Pow(2, 31);
  }

  /** Sums of up to two. */
  lemma Sums(x: nat, y: nat)
    ensures Added([]) == 0 && Added([x]) == x && Added([x, y]) == x + y
  {
    assert [x][..0] == [] && [x, y][..1] == [x];
  }

  /** A transfer of the gas token, with two signatures, to an NFT address; of another token to a fresh holder, and again. */
  lemma MeasuredTransfers()
    ensures Quotes(TransferFungible, DEFAULT_PARAMS.(tokenId := 1), LOCALNET, TransactionParams(170, 0),
                   NativeFeeEstimate(42600000, 0, 42600000, 0, 0))
    ensures Quotes(TransferFungible, DEFAULT_PARAMS.(tokenId := 1), LOCALNET, TransactionParams(266, 0),
                   NativeFeeEstimate(66600000, 0, 66600000, 0, 0))
    ensures Quotes(TransferFungible, DEFAULT_PARAMS.(tokenId := 1, toIsNftAddress := true), LOCALNET, TransactionParams(170, 0),
                   NativeFeeEstimate(42700000, 0, 42700000, 0, 0))
    ensures Quotes(TransferFungible, DEFAULT_PARAMS.(tokenId := 97), LOCALNET, TransactionParams(170, 0),
                   NativeFeeEstimate(42850000, 50000, 42850000, 1, 0))
    ensures Quotes(TransferFungible, DEFAULT_PARAMS.(facts := DEFAULT_PARAMS.facts.(recipientHoldsToken := true), tokenId := 97), LOCALNET, TransactionParams(170, 0),
                   NativeFeeEstimate(42600000, 0, 42600000, 0, 0))
  {
    hide Settle, Narrow, PartCharges, Pow, Added;
    Powers();
    TransferPrice(DEFAULT_PARAMS.(tokenId := 1), LOCALNET);
    SmallV2(PartCharges(NativeFeePart(TransferFungible, DEFAULT_PARAMS.(tokenId := 1)), LOCALNET), LOCALNET, 170);
    TransferPrice(DEFAULT_PARAMS.(tokenId := 1), LOCALNET);
    SmallV2(PartCharges(NativeFeePart(TransferFungible, DEFAULT_PARAMS.(tokenId := 1)), LOCALNET), LOCALNET, 266);
    TransferPrice(DEFAULT_PARAMS.(tokenId := 1, toIsNftAddress := true), LOCALNET);
    SmallV2(PartCharges(NativeFeePart(TransferFungible, DEFAULT_PARAMS.(tokenId := 1, toIsNftAddress := true)), LOCALNET), LOCALNET, 170);
    TransferPrice(DEFAULT_PARAMS.(tokenId := 97), LOCALNET);
    SmallV2(PartCharges(NativeFeePart(TransferFungible, DEFAULT_PARAMS.(tokenId := 97)), LOCALNET), LOCALNET, 170);
    TransferPrice(DEFAULT_PARAMS.(facts := DEFAULT_PARAMS.facts.(recipientHoldsToken := true), tokenId := 97), LOCALNET);
    SmallV2(PartCharges(NativeFeePart(TransferFungible, DEFAULT_PARAMS.(facts := DEFAULT_PARAMS.facts.(recipientHoldsToken := true), tokenId := 97)), LOCALNET), LOCALNET, 170);
  }

  /** A mint to a fresh holder, a first burn and a second one. */
  lemma MeasuredMintsAndBurns()
    ensures Quotes(MintFungible, DEFAULT_PARAMS.(facts := DEFAULT_PARAMS.facts.(supplyRowExists := true, bigFungible := false), tokenId := 97), LOCALNET, TransactionParams(171, 0),
                   NativeFeeEstimate(45350000, 50000, 45350000, 1, 0))
    ensures Quotes(BurnFungible, DEFAULT_PARAMS.(facts := DEFAULT_PARAMS.facts.(supplyRowExists := true, bigFungible := false), tokenId := 97), LOCALNET, TransactionParams(139, 0),
                   NativeFeeEstimate(37350000, 50000, 37350000, 1, 0))
    ensures Quotes(BurnFungible, DEFAULT_PARAMS.(facts := DEFAULT_PARAMS.facts.(supplyRowExists := true, bigFungible := false, tokenBurnedBefore := true), tokenId := 97), LOCALNET, TransactionParams(139, 0),
                   NativeFeeEstimate(37100000, 0, 37100000, 0, 0))
  {
    hide Settle, Narrow, PartCharges, Pow, Added;
    Powers();
    MintPrice(DEFAULT_PARAMS.(facts := DEFAULT_PARAMS.facts.(supplyRowExists := true, bigFungible := false), tokenId := 97), LOCALNET);
    SmallV2(PartCharges(NativeFeePart(MintFungible, DEFAULT_PARAMS.(facts := DEFAULT_PARAMS.facts.(supplyRowExists := true, bigFungible := false), tokenId := 97)), LOCALNET), LOCALNET, 171);
    BurnPrice(DEFAULT_PARAMS.(facts := DEFAULT_PARAMS.facts.(supplyRowExists := true, bigFungible := false), tokenId := 97), LOCALNET);
    SmallV2(PartCharges(NativeFeePart(BurnFungible, DEFAULT_PARAMS.(facts := DEFAULT_PARAMS.facts.(supplyRowExists := true, bigFungible := false), tokenId := 97)), LOCALNET), LOCALNET, 139);
    BurnPrice(DEFAULT_PARAMS.(facts := DEFAULT_PARAMS.facts.(supplyRowExists := true, bigFungible := false, tokenBurnedBefore := true), tokenId := 97), LOCALNET);
    SmallV2(PartCharges(NativeFeePart(BurnFungible, DEFAULT_PARAMS.(facts := DEFAULT_PARAMS.facts.(supplyRowExists := true, bigFungible := false, tokenBurnedBefore := true), tokenId := 97)), LOCALNET), LOCALNET, 139);
  }

  /** A token with a symbol of seven characters, and one with a pre-burn. */
  lemma MeasuredCreations()
    ensures Quotes(CreateToken, DEFAULT_PARAMS.(symbolLength := 7, tokenInfoBytes := 204), LOCALNET, TransactionParams(374, 0),
                   NativeFeeEstimate(101658750000, 150000, 101658750000, 3, 0))
    ensures Quotes(CreateToken, DEFAULT_PARAMS.(symbolLength := 7, tokenInfoBytes := 198, hasPreBurn := true), LOCALNET, TransactionParams(368, 0),
                   NativeFeeEstimate(101657500000, 200000, 101657500000, 4, 0))
  {
    hide Settle, Narrow, PartCharges, Pow, Added;
    Powers();
    CreationPriced(DEFAULT_PARAMS.(symbolLength := 7, tokenInfoBytes := 204), LOCALNET, 3);
    SmallV2(PartCharges(NativeFeePart(CreateToken, DEFAULT_PARAMS.(symbolLength := 7, tokenInfoBytes := 204)), LOCALNET), LOCALNET, 374);
    CreationPriced(DEFAULT_PARAMS.(symbolLength := 7, tokenInfoBytes := 198, hasPreBurn := true), LOCALNET, 4);
    SmallV2(PartCharges(NativeFeePart(CreateToken, DEFAULT_PARAMS.(symbolLength := 7, tokenInfoBytes := 198, hasPreBurn := true)), LOCALNET), LOCALNET, 368);
  }

  /** A name of 12 characters, and one whose price is halved away. */
  lemma MeasuredNames()
    ensures Quotes(RegisterName, DEFAULT_PARAMS.(nameLength := 12), LOCALNET, TransactionParams(311, 0),
                   NativeFeeEstimate(566031250, 0, 566031250, 0, 0))
    ensures Quotes(RegisterName, DEFAULT_PARAMS.(nameLength := 64), LOCALNET, TransactionParams(363, 0),
                   NativeFeeEstimate(90750000, 0, 90750000, 0, 0))
  {
    hide Settle, Narrow, PartCharges, Pow, Added;
    Powers();
    NamePrice(DEFAULT_PARAMS.(nameLength := 12), LOCALNET);
    SmallV2(PartCharges(NativeFeePart(RegisterName, DEFAULT_PARAMS.(nameLength := 12)), LOCALNET), LOCALNET, 311);
    NamePrice(DEFAULT_PARAMS.(nameLength := 64), LOCALNET);
    SmallV2(PartCharges(NativeFeePart(RegisterName, DEFAULT_PARAMS.(nameLength := 64)), LOCALNET), LOCALNET, 363);
  }

  /** One instance with a ROM of 172 bytes. */
  lemma MeasuredPhantasmaMint()
    ensures Quotes(MintPhantasmaNonFungible, DEFAULT_PARAMS.(facts := DEFAULT_PARAMS.facts.(supplyRowExists := true, duplicatedSeries := false), tokenId := 9, count := 1, romBytes := 172), LOCALNET, TransactionParams(403, 0),
                   NativeFeeEstimate(113300000, 250000, 113300000, 5, 0))
  {
    hide Settle, Narrow, PartCharges, Pow, Added;
    Powers();
    Sums(4, 0);
    PhantasmaMintPrice(DEFAULT_PARAMS.(facts := DEFAULT_PARAMS.facts.(supplyRowExists := true, duplicatedSeries := false), tokenId := 9, count := 1, romBytes := 172), LOCALNET, [4]);
    SmallV2(PartCharges(NativeFeePart(MintPhantasmaNonFungible, DEFAULT_PARAMS.(facts := DEFAULT_PARAMS.facts.(supplyRowExists := true, duplicatedSeries := false), tokenId := 9, count := 1, romBytes := 172)), LOCALNET), LOCALNET, 403);
  }

  /** Five instances moved, and two minted with ROMs and RAMs of their own. */
  lemma PackageInstances()
    ensures Quotes(TransferNonFungible, DEFAULT_PARAMS.(count := 5), PACKAGE, TransactionParams(300, 0),
                   NativeFeeEstimate(75750000, 1200000, 75750000, 6, 5))
    ensures Quotes(MintNonFungible, DEFAULT_PARAMS.(facts := DEFAULT_PARAMS.facts.(recipientHoldsToken := true, supplyRowExists := true), count := 2, romBytesPerInstance := Some([100, 2000]), ramBytesPerInstance := Some([0, 40])), PACKAGE, TransactionParams(400, 0),
                   NativeFeeEstimate(107950000, 2200000, 107950000, 11, 0))
  {
    hide Settle, Narrow, PartCharges, Pow, Added;
    Powers();
    InstanceTransferPrice(DEFAULT_PARAMS.(count := 5), PACKAGE);
    SmallV2(PartCharges(NativeFeePart(TransferNonFungible, DEFAULT_PARAMS.(count := 5)), PACKAGE), PACKAGE, 300);
    Sums(4, 7);
    InstanceMintPrice(DEFAULT_PARAMS.(facts := DEFAULT_PARAMS.facts.(recipientHoldsToken := true, supplyRowExists := true), count := 2, romBytesPerInstance := Some([100, 2000]), ramBytesPerInstance := Some([0, 40])), PACKAGE, [4, 7]);
    SmallV2(PartCharges(NativeFeePart(MintNonFungible, DEFAULT_PARAMS.(facts := DEFAULT_PARAMS.facts.(recipientHoldsToken := true, supplyRowExists := true), count := 2, romBytesPerInstance := Some([100, 2000]), ramBytesPerInstance := Some([0, 40]))), PACKAGE), PACKAGE, 400);
  }

  /** Two instances of duplicated series. */
  lemma PackagePhantasmaMint()
    ensures Quotes(MintPhantasmaNonFungible, DEFAULT_PARAMS.(facts := DEFAULT_PARAMS.facts.(recipientHoldsToken := true, supplyRowExists := true, duplicatedSeries := true), count := 2, romBytes := 100, distinctSeriesCount := 2), PACKAGE, TransactionParams(500, 0),
                   NativeFeeEstimate(148360000, 1600000, 148360000, 8, 0))
  {
    hide Settle, Narrow, PartCharges, Pow, Added;
    Powers();
    Sums(4, 4);
    PhantasmaMintPrice(DEFAULT_PARAMS.(facts := DEFAULT_PARAMS.facts.(recipientHoldsToken := true, supplyRowExists := true, duplicatedSeries := true), count := 2, romBytes := 100, distinctSeriesCount := 2), PACKAGE, [4, 4]);
    SmallV2(PartCharges(NativeFeePart(MintPhantasmaNonFungible, DEFAULT_PARAMS.(facts := DEFAULT_PARAMS.facts.(recipientHoldsToken := true, supplyRowExists := true, duplicatedSeries := true), count := 2, romBytes := 100, distinctSeriesCount := 2)), PACKAGE), PACKAGE, 500);
  }

  /** One instance burned that held a fungible token and two instances of another. */
  lemma PackageBurn()
    ensures Quotes(BurnNonFungible, DEFAULT_PARAMS.(facts := DEFAULT_PARAMS.facts.(tokenBurnedBefore := true, supplyRowExists := true), count := 1, romBytes := 100, infusions := [InfusedAsset(77, false, false, 0), InfusedAsset(78, true, true, 2)]), PACKAGE, TransactionParams(300, 0),
                   NativeFeeEstimate(75500000, 600000, 75500000, 3, 8))
  {
    hide Settle, Narrow, PartCharges, Pow, Added;
    Powers();
    Sums(4, 0);
    Sums(12, 24);
    Sums(1, 2);
    Sums(1, 3);
    InstanceBurnPrice(DEFAULT_PARAMS.(facts := DEFAULT_PARAMS.facts.(tokenBurnedBefore := true, supplyRowExists := true), count := 1, romBytes := 100, infusions := [InfusedAsset(77, false, false, 0), InfusedAsset(78, true, true, 2)]), PACKAGE, [4], [12, 24], [1, 2], [1, 3]);
    SmallV2(PartCharges(NativeFeePart(BurnNonFungible, DEFAULT_PARAMS.(facts := DEFAULT_PARAMS.facts.(tokenBurnedBefore := true, supplyRowExists := true), count := 1, romBytes := 100, infusions := [InfusedAsset(77, false, false, 0), InfusedAsset(78, true, true, 2)])), PACKAGE), PACKAGE, 300);
  }

  /** A series, a script, and a token with everything its metadata can ask for. */
  lemma PackageOthers()
    ensures Quotes(CreateTokenSeries, DEFAULT_PARAMS.(seriesInfoBytes := 200), PACKAGE, TransactionParams(700, 0),
                   NativeFeeEstimate(25000176750000, 600000, 25000176750000, 3, 0))
    ensures Quotes(Script, DEFAULT_PARAMS.(scriptStorageQuanta := 0), PACKAGE, TransactionParams(568, 0),
                   NativeFeeEstimate(320000000, 0, 320000000, 0, 0))
    ensures Quotes(CreateToken, DEFAULT_PARAMS.(symbolLength := 4, tokenInfoBytes := 300, nonFungible := true, hasPreBurn := true, hasInflationSchedule := true, hasStakingOrganisation := true, hasStakingRewardToken := true), PACKAGE, TransactionParams(1000, 0),
                   NativeFeeEstimate(112500253540000, 1200000, 112500253540000, 6, 0))
  {
    hide Settle, Narrow, PartCharges, Pow, Added;
    Powers();
    SeriesPrice(DEFAULT_PARAMS.(seriesInfoBytes := 200), PACKAGE);
    SmallV2(PartCharges(NativeFeePart(CreateTokenSeries, DEFAULT_PARAMS.(seriesInfoBytes := 200)), PACKAGE), PACKAGE, 700);
    ScriptPrice(DEFAULT_PARAMS.(scriptStorageQuanta := 0), PACKAGE);
    SmallV2(PartCharges(NativeFeePart(Script, DEFAULT_PARAMS.(scriptStorageQuanta := 0)), PACKAGE), PACKAGE, 568);
    CreationPriced(DEFAULT_PARAMS.(symbolLength := 4, tokenInfoBytes := 300, nonFungible := true, hasPreBurn := true, hasInflationSchedule := true, hasStakingOrganisation := true, hasStakingRewardToken := true), PACKAGE, 6);
    SmallV2(PartCharges(NativeFeePart(CreateToken, DEFAULT_PARAMS.(symbolLength := 4, tokenInfoBytes := 300, nonFungible := true, hasPreBurn := true, hasInflationSchedule := true, hasStakingOrganisation := true, hasStakingRewardToken := true)), PACKAGE), PACKAGE, 1000);
  }

  // ---- every price at once ------------------------------------------------------------------

  /** All fields distinct and none zero, so that no field can stand in for another. */
  const DISTINCT := GasConfig(1, 21, 22, 3, 1000, 24, 5, 6, 101, 1009, 7, 4, 51, 53, 57, 11, 59, 2, 14, 103, 8, 9, 12, 15, 211, 223, 227, 229, 13)

  function MintedToNft(): NativeFeeParams {
    DEFAULT_PARAMS.(tokenId := 9, toIsNftAddress := true)
  }

  function CreatedToken(): NativeFeeParams {
    DEFAULT_PARAMS.(symbolLength := 2, tokenInfoBytes := 2000, nonFungible := true, hasStakingOrganisation := true)
  }

  lemma ByThree(units: nat)
    requires units < 0x1_0000_0000
    ensures Scaled(units, 24, 3) == 3 * units
  {
    Powers();
    Bits.DivModIs(units * 24, 8, 3 * units, 0);
  }

  lemma DistinctCharges(version: U8)
    ensures
      var c := DISTINCT.(version := version);
      && PartCharges(NativeFeePart(MintFungible, MintedToNft()), c) == Charges(11, 0, 33, 2, 0)
      && PartCharges(NativeFeePart(CreateToken, CreatedToken()), c) == (if version == 0 then Charges(81, 0, 8, 5, 0) else Charges(4, 322, 8, 5, 0))
  {
    hide PartCharges, Pow;
    Powers();
    MintPrice(MintedToNft(), DISTINCT.(version := version));
    CreationPriced(CreatedToken(), DISTINCT.(version := version), 5);
  }

  /** Gas model v2: 3 * (11 + 25 * (100 + 2 + 33)), and 3 * (4 + 25 * (100 + 5 + 8)) + 322. */
  lemma DistinctV2()
    ensures Quotes(MintFungible, MintedToNft(), DISTINCT, TransactionParams(100, 40), NativeFeeEstimate(10158, 2018, 10158, 2, 0))
    ensures Quotes(CreateToken, CreatedToken(), DISTINCT, TransactionParams(100, 40), NativeFeeEstimate(8809, 5045, 8809, 5, 0))
  {
    hide Settle, Narrow, PartCharges, Scaled, Pow;
    DistinctCharges(1);
    DistinctSettledV2(Charges(11, 0, 33, 2, 0), DISTINCT);
    DistinctSettledV2(Charges(4, 322, 8, 5, 0), DISTINCT);
  }

  lemma DistinctSettledV2(x: Charges, c: GasConfig)
    requires c == DISTINCT.(minimumGasBill := c.minimumGasBill, minimumGasOffer := c.minimumGasOffer)
    requires x.work < 0x1_0000 && x.policy < 0x1_0000 && x.result < 0x1_0000 && x.rows < 0x1_0000 && x.deleted == 0
    ensures
      var bill := Larger(3 * (x.work + 25 * (100 + x.rows + x.result)) + x.policy, c.minimumGasBill);
      Settle(Narrow(x), c, TransactionParams(100, 40)) == Some(NativeFeeEstimate(Larger(bill, c.minimumGasOffer), 1009 * x.rows, bill, x.rows, 0))
  {
    hide Settle, Scaled;
    assert Narrow(x) == OperationModel(x.work, x.policy, x.result, x.rows, x.deleted);
    SettledV2(Narrow(x), c, TransactionParams(100, 40));
    ByThree(x.work + 25 * (100 + x.rows + x.result));
  }

  /** A bill below the minimum is raised to it, and the offer to the minimum offer. */
  lemma DistinctFloors()
    ensures Quotes(MintFungible, MintedToNft(), DISTINCT.(minimumGasBill := 20000), TransactionParams(100, 40),
                   NativeFeeEstimate(20000, 2018, 20000, 2, 0))
    ensures Quotes(MintFungible, MintedToNft(), DISTINCT.(minimumGasOffer := 30000), TransactionParams(100, 40),
                   NativeFeeEstimate(30000, 2018, 10158, 2, 0))
  {
    hide Settle, Narrow, PartCharges, Scaled, Pow;
    MintPrice(MintedToNft(), DISTINCT.(minimumGasBill := 20000));
    MintPrice(MintedToNft(), DISTINCT.(minimumGasOffer := 30000));
    DistinctSettledV2(Charges(11, 0, 33, 2, 0), DISTINCT.(minimumGasBill := 20000));
    DistinctSettledV2(Charges(11, 0, 33, 2, 0), DISTINCT.(minimumGasOffer := 30000));
  }

  /** Gas model v1: the bill 3 * 11 + (40 + 33 + 2) * 11 and 3 * 81 + (40 + 8 + 5) * 11; the offer twice 101, the
      work and 1024 bytes. */
  lemma DistinctV1()
    ensures Quotes(MintFungible, MintedToNft(), DISTINCT.(version := 0), TransactionParams(100, 40), NativeFeeEstimate(11499, 2018, 858, 2, 0))
    ensures Quotes(CreateToken, CreatedToken(), DISTINCT.(version := 0), TransactionParams(100, 40), NativeFeeEstimate(11709, 5045, 826, 5, 0))
    ensures Quotes(MintFungible, MintedToNft(), DISTINCT.(version := 0), TransactionParams(100, 2000), NativeFeeEstimate(22620, 2018, 22418, 2, 0))
  {
    hide Settle, Narrow, PartCharges, Scaled, Pow;
    DistinctCharges(0);
    DistinctSettledV1(Charges(11, 0, 33, 2, 0), 40);
    DistinctSettledV1(Charges(81, 0, 8, 5, 0), 40);
    DistinctSettledV1(Charges(11, 0, 33, 2, 0), 2000);
  }

  lemma DistinctSettledV1(x: Charges, payload: U32)
    requires x.work < 0x1_0000 && x.policy == 0 && x.result < 0x1_0000 && x.rows < 0x1_0000 && x.deleted == 0 && payload < 0x1_0000
    ensures
      var bytes: nat := payload + x.result + x.rows;
      Settle(Narrow(x), DISTINCT.(version := 0), TransactionParams(100, payload)) ==
        Some(NativeFeeEstimate(202 + 3 * x.work + (if bytes > 1024 then bytes else 1024) * 11, 1009 * x.rows, 3 * x.work + bytes * 11, x.rows, 0))
  {
    hide Settle, Scaled;
    assert Narrow(x) == OperationModel(x.work, 0, x.result, x.rows, x.deleted);
    SettledV1(Narrow(x), DISTINCT.(version := 0), TransactionParams(100, payload));
    ByThree(x.work);
  }

  /** Before the package: a transfer to a known holder, to a fresh one, a token and a name. */
  lemma LiveQuotes()
    ensures Quotes(TransferFungible, DEFAULT_PARAMS.(facts := DEFAULT_PARAMS.facts.(recipientHoldsToken := true)), LIVE, TransactionParams(0, 0),
                   NativeFeeEstimate(256100020, 0, 100000, 0, 0))
    ensures Quotes(TransferFungible, DEFAULT_PARAMS, LIVE, TransactionParams(0, 0), NativeFeeEstimate(256100020, 2, 350000, 1, 0))
    ensures Quotes(CreateToken, DEFAULT_PARAMS.(symbolLength := 4, tokenInfoBytes := 300), LIVE, TransactionParams(1000, 0),
                   NativeFeeEstimate(112500256000020, 6, 112500002750000, 3, 0))
    ensures Quotes(RegisterName, DEFAULT_PARAMS.(nameLength := 8), LIVE, TransactionParams(300, 0),
                   NativeFeeEstimate(781250256000020, 0, 781250000000000, 0, 0))
  {
    hide Settle, Narrow, PartCharges, Scaled, Pow;
    Powers();
    TransferPrice(DEFAULT_PARAMS.(facts := DEFAULT_PARAMS.facts.(recipientHoldsToken := true)), LIVE);
    TransferPrice(DEFAULT_PARAMS, LIVE);
    CreationPriced(DEFAULT_PARAMS.(symbolLength := 4, tokenInfoBytes := 300), LIVE, 3);
    NamePrice(DEFAULT_PARAMS.(nameLength := 8), LIVE);
    LiveSettled(Charges(10, 0, 0, 0, 0), 0);
    LiveSettled(Charges(10, 0, 0, 1, 0), 0);
    LiveSettled(Charges(11250000000, 0, 8, 3, 0), 1000);
    LiveSettled(Charges(78125000000, 0, 0, 0, 0), 300);
  }

  lemma LiveSettled(x: Charges, envelope: U32)
    requires x.work < 0x100_0000_0000 && x.policy == 0 && x.result < 0x100 && x.rows < 0x100 && x.deleted == 0
    ensures Settle(Narrow(x), LIVE, TransactionParams(envelope, 0)) ==
      Some(NativeFeeEstimate(256000020 + 10000 * x.work, 2 * x.rows, 10000 * x.work + (x.result + x.rows) * 250000, x.rows, 0))
  {
    hide Settle, Scaled;
    assert Narrow(x) == OperationModel(x.work, 0, x.result, x.rows, x.deleted);
    SettledV1(Narrow(x), LIVE, TransactionParams(envelope, 0));
    UnscaledIs(x.work, 10000);
  }

  /** What the chain measured, run through the calculator. */
  method MeasuredBills() returns (transfer: NativeFeeEstimate, created: NativeFeeEstimate, minted: NativeFeeEstimate)
    ensures transfer.expectedGasBill == 42850000 && transfer.maxData == 50000
    ensures created.expectedGasBill == 101658750000
    ensures minted.expectedGasBill == 113300000 && minted.maxData == 250000
  {
    hide Settle, Narrow, PartCharges, Accepted;
    MeasuredTransfers();
    MeasuredCreations();
    MeasuredPhantasmaMint();
    var ok;
    ok, transfer := EstimateNativeFee(TransferFungible, LOCALNET, DEFAULT_PARAMS.(tokenId := 97), TransactionParams(170, 0));
    ok, created := EstimateNativeFee(CreateToken, LOCALNET, DEFAULT_PARAMS.(symbolLength := 7, tokenInfoBytes := 204), TransactionParams(374, 0));
    ok, minted := EstimateNativeFee(MintPhantasmaNonFungible, LOCALNET,
      DEFAULT_PARAMS.(facts := DEFAULT_PARAMS.facts.(supplyRowExists := true, duplicatedSeries := false), tokenId := 9, count := 1, romBytes := 172),
      TransactionParams(403, 0));
  }

  /** Two transfers in one message are settled once, at one envelope. */
  method BatchOfTwo() returns (estimate: NativeFeeEstimate)
    ensures estimate == NativeFeeEstimate(100700000, 400000, 100700000, 2, 0)
  {
    hide Settle, Narrow, PartCharges, Accepted, BatchCharges;
    var p := NativeFeePart(TransferFungible, DEFAULT_PARAMS);
    TransferPrice(DEFAULT_PARAMS, PACKAGE);
    BatchAdds([], p, PACKAGE);
    BatchAdds([p], p, PACKAGE);
    assert [] + [p] == [p] && [p] + [p] == [p, p];
    assert Accepted(p, PACKAGE) by { RefusedExactly(TransferFungible, DEFAULT_PARAMS, PACKAGE); }
    SmallV2(Charges(20, 0, 0, 2, 0), PACKAGE, 400);
    var ok;
    ok, estimate := EstimateNativeFeeBatch([p, p], PACKAGE, TransactionParams(400, 0));
  }
}
