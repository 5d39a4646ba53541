/** The fee calculator on 64-bit words: work and policy fees saturate, result bytes and rows wrap.
    Every method is shown to compute the unbounded charges of FeeModel, narrowed once at the end. */
module FeeEstimator {
  import opened Words64
  import opened GasConfigs
  import opened FeeModel
  import opened Positional

  datatype OperationModel = OperationModel(workUnits: U64, policyFee: U64, resultBytes: U64, newQuanta: U64, deletedQuanta: U64)

  const NO_MODEL := OperationModel(0, 0, 0, 0, 0)

  /** What is left of unbounded charges in 64-bit words. */
  function Narrow(c: Charges): OperationModel {
    OperationModel(Sat(c.work), Sat(c.policy), Wrap(c.result), Wrap(c.rows), Wrap(c.deleted))
  }

  function WrapAdd(a: U64, b: U64): (r: U64)
    ensures r == Wrap((a as nat) + b)
  {
    Wrap((a as int) + b)
  }

  lemma WrapWrap(x: nat, y: nat)
    ensures Wrap((Wrap(x) as nat) + y) == Wrap(x + y) && Wrap(x + Wrap(y)) == Wrap(x + y)
  {
  }

  /** One operation added to the running totals. */
  function AddOperation(totals: OperationModel, part: OperationModel): OperationModel {
    OperationModel(
      SaturatingAdd(totals.workUnits, part.workUnits), SaturatingAdd(totals.policyFee, part.policyFee),
      WrapAdd(totals.resultBytes, part.resultBytes), WrapAdd(totals.newQuanta, part.newQuanta),
      WrapAdd(totals.deletedQuanta, part.deletedQuanta))
  }

  lemma AddNarrow(a: Charges, b: Charges)
    ensures AddOperation(Narrow(a), Narrow(b)) == Narrow(Plus(a, b))
  {
    hide Sat, Wrap;
    SumOfSats(a.work, b.work);
    SumOfSats(a.policy, b.policy);
    SumOfWraps(a.result, b.result);
    SumOfWraps(a.rows, b.rows);
    SumOfWraps(a.deleted, b.deleted);
  }

  lemma SumOfSats(x: nat, y: nat)
    ensures Sat((Sat(x) as nat) + Sat(y)) == Sat(x + y)
  {
  }

  lemma SumOfWraps(x: nat, y: nat)
    ensures Wrap((Wrap(x) as nat) + Wrap(y)) == Wrap(x + y)
  {
  }

  lemma SatProduct(a: U64, x: nat, n: U64)
    requires a == Sat(x)
    ensures SaturatingMul(a, n) == Sat(Product(x, n))
  {
    SatMulSat(x, n);
  }

  // ---- rows ---------------------------------------------------------------------------------

  function StorageQuantaFor(rowBytes: U64): (r: U64)
    requires rowBytes < 0x4_0000_0000
    ensures r == RowQuanta(rowBytes) && r <= 0x100_0000
  {
    var r := CeilDiv(rowBytes, 1024);
    r
  }

  function PhantasmaCanonicalRomBytes(publicRomBytes: U64): U64
    requires publicRomBytes < 0x1_0000_0000
  {
    (publicRomBytes as nat) * 2 + 36
  }

  lemma NoRows(p: NativeFeeParams, canonical: bool)
    requires p.SizesFit()
    ensures InstanceRows(p, 0, canonical) == 0
  {
  }

  /** The rows of one more instance; they never exceed 2^26 quanta. */
  lemma OneMoreInstance(p: NativeFeeParams, i: nat, canonical: bool)
    requires p.SizesFit() && i < p.count
    ensures InstanceRows(p, i + 1, canonical) == InstanceRows(p, i, canonical) + InstanceQuanta(p, i, canonical)
    ensures InstanceQuanta(p, i, canonical) <= 0x400_0000
  {
  }

  method SumRawRows(params: NativeFeeParams, start: U64) returns (quanta: U64)
    requires params.SizesFit() && start <= 2
    ensures quanta == start + InstanceRows(params, params.count, false) < 0x800_0000_0000_0000
  {
    hide InstanceRows, RowQuanta, NativeFeeParams.RomSizeAt, NativeFeeParams.RamSizeAt;
    quanta := start;
    NoRows(params, false);
    var i: nat := 0;
    while i != params.count
      invariant i <= params.count && quanta == start + InstanceRows(params, i, false)
      invariant quanta <= 2 + i * 0x400_0000
    {
      OneMoreInstance(params, i, false);
      var rom: nat := params.RomSizeAt(i);
      var ram: nat := params.RamSizeAt(i);
      quanta := quanta + StorageQuantaFor(62 + rom) + 2;
      if ram > 0 {
        quanta := quanta + StorageQuantaFor(17 + ram);
      }
      if params.facts.romHasMetaId {
        quanta := quanta + 1;
      }
      i := i + 1;
    }
  }

  method SumCanonicalRows(params: NativeFeeParams, start: U64) returns (quanta: U64)
    requires params.SizesFit() && start <= 2
    ensures quanta == start + InstanceRows(params, params.count, true) < 0x800_0000_0000_0000
  {
    hide InstanceRows, RowQuanta, NativeFeeParams.RomSizeAt, NativeFeeParams.RamSizeAt;
    quanta := start;
    NoRows(params, true);
    var i: nat := 0;
    while i != params.count
      invariant i <= params.count && quanta == start + InstanceRows(params, i, true)
      invariant quanta <= 2 + i * 0x400_0000
    {
      OneMoreInstance(params, i, true);
      var rom: nat := params.RomSizeAt(i);
      var ram: nat := params.RamSizeAt(i);
      quanta := quanta + StorageQuantaFor(62 + PhantasmaCanonicalRomBytes(rom)) + 3;
      if ram > 0 {
        quanta := quanta + StorageQuantaFor(17 + ram);
      }
      i := i + 1;
    }
  }

  // ---- what a burn gives back ---------------------------------------------------------------

  /** One returned asset on 64-bit words. */
  function ReturnedAsset(asset: InfusedAsset, config: GasConfig): OperationModel {
    var free := FreeToken(asset.tokenId, config);
    var balanceRow: nat := if asset.burnerHoldsToken || free then 0 else 1;
    if asset.nonFungible then
      OperationModel(
        SaturatingAdd(SaturatingMul(config.gasFeeQuery, 2), SaturatingMul(config.gasFeeTransfer, asset.instanceCount)), 0, 0,
        balanceRow + asset.instanceCount, (1 + (asset.instanceCount as nat)) % 0x1_0000_0000)
    else
      OperationModel(SaturatingAdd(config.gasFeeTransfer, config.gasFeeQuery), 0, 0, balanceRow, if free then 0 else 1)
  }

  lemma ReturnedAssetIs(asset: InfusedAsset, config: GasConfig)
    ensures ReturnedAsset(asset, config) == Narrow(ReturnCharge(asset, config))
  {
    SumOfSats((config.gasFeeQuery as nat) * 2, Product(config.gasFeeTransfer, asset.instanceCount));
  }

  method ReturnedAssets(infusions: seq<InfusedAsset>, config: GasConfig) returns (ok: bool, model: OperationModel)
    ensures ok <==> ReturnsAccepted(infusions)
    ensures ok ==> model == Narrow(ReturnCharges(infusions, config))
    ensures !ok ==> model == NO_MODEL
  {
    hide Narrow, AddOperation, ReturnedAsset, ReturnCharge;
    ok, model := true, NO_MODEL;
    NarrowNothing();
    var i: nat := 0;
    while i != |infusions|
      invariant i <= |infusions| && ReturnsAccepted(infusions[..i])
      invariant model == Narrow(ReturnCharges(infusions[..i], config))
    {
      var asset := infusions[i];
      if asset.nonFungible && asset.instanceCount < 1 {
        return false, NO_MODEL;
      }
      model := AddOperation(model, ReturnedAsset(asset, config));
      ReturnedAssetIs(asset, config);
      AddNarrow(ReturnCharges(infusions[..i], config), ReturnCharge(asset, config));
      assert infusions[..i + 1][..i] == infusions[..i];
      i := i + 1;
    }
    assert infusions[..i] == infusions;
  }

  lemma NarrowNothing()
    ensures NO_MODEL == Narrow(NOTHING)
  {
  }

  // ---- one operation ------------------------------------------------------------------------

  /** The fee shift of a symbol or name length, or -1 when no price can be quoted offline. */
  function SymbolShift(length: U32, maxLength: U8): (shift: int)
    ensures shift == -1 <==> !LengthPriceable(length, maxLength)
    ensures shift != -1 ==> 0 <= shift < 64 && shift == if length == 0 then 0 else length - 1
  {
    if length == 0 then 0
    else
      var shift: int := length - 1;
      if maxLength != 0 && shift >= maxLength then -1
      else if length > 64 then -1
      else shift
  }

  /** A price shifted down: the largest whole number of units whose 2^shift-fold stays within it. */
  function HalvedPrice(price: U64, shift: nat): (r: U64)
    ensures r * Pow(2, shift) <= price < (r + 1) * Pow(2, shift)
  {
    QuotientBound(price, Pow(2, shift));
    QuotientHolds(price, Pow(2, shift));
    ShiftDown(price, shift)
  }

  lemma QuotientHolds(x: nat, d: nat)
    requires d >= 1
    ensures (x / d) * d <= x < (x / d + 1) * d
  {
    Quotients(x, d);
    assert (x / d + 1) * d == (x / d) * d + d;
    assert d * (x / d) == (x / d) * d;
  }

  /** Each further character halves the price once more, rounding down. */
  lemma HalvedOnceMore(price: U64, shift: nat)
    ensures HalvedPrice(price, 0) == price
    ensures HalvedPrice(price, shift + 1) == HalvedPrice(price, shift) / 2
  {
    var p := Pow(2, shift);
    assert Pow(2, 0) == 1 && Pow(2, shift + 1) == 2 * p;
    hide Pow;
    var r: nat := HalvedPrice(price, shift);
    var low: nat, h, o := price - r * p, r / 2, r % 2;
    HalvesAre(r, p, h, o);
    Grow(o, 1, p);
    Bits.DivModIs(price, 2 * p, h, o * p + low);
  }

  lemma HalvesAre(r: nat, p: nat, h: nat, o: nat)
    requires r == 2 * h + o
    ensures r * p == h * (2 * p) + o * p
  {
  }

  lemma QuotientBound(x: nat, d: nat)
    requires d >= 1
    ensures 0 <= x / d <= x
  {
    Quotients(x, d);
    Grow(1, d, x / d);
    assert d * (x / d) == (x / d) * d;
  }

  /** How many distinct series a duplicated mint touches; zero marks a refused count. */
  function DistinctSeries(params: NativeFeeParams): U32 {
    if params.distinctSeriesCount < 1 || params.distinctSeriesCount > params.count then 0 else params.distinctSeriesCount
  }

  /** The work of a Phantasma mint before the recipient lookup. */
  function PhantasmaMintWork(params: NativeFeeParams, config: GasConfig, supplyQueries: U32): U64 {
    var queries: U64 := if params.facts.duplicatedSeries then 3 else 2;
    SaturatingAdd(
      SaturatingMul(SaturatingAdd(config.gasFeeTransfer, SaturatingMul(config.gasFeeQuery, queries)), params.count),
      SaturatingMul(config.gasFeeQuery, supplyQueries))
  }

  lemma PhantasmaMintWorkIs(params: NativeFeeParams, config: GasConfig, supplyQueries: U32)
    requires supplyQueries == if params.facts.duplicatedSeries then params.distinctSeriesCount else 0
    ensures PhantasmaMintWork(params, config, supplyQueries) == Sat(MintWork(params, config))
  {
    hide Sat, Product;
    var inner := SaturatingAdd(config.gasFeeTransfer, SaturatingMul(config.gasFeeQuery, MintQueries(params)));
    ChargedQueries(config.gasFeeTransfer, config.gasFeeQuery, MintQueries(params));
    SatProduct(inner, config.gasFeeTransfer + Product(config.gasFeeQuery, MintQueries(params)), params.count);
    Multiplied(config.gasFeeQuery, supplyQueries);
    SumOfSats(Product(config.gasFeeTransfer + Product(config.gasFeeQuery, MintQueries(params)), params.count),
              Product(config.gasFeeQuery, supplyQueries));
  }

  lemma Multiplied(a: U64, n: U64)
    ensures SaturatingMul(a, n) == Sat(Product(a, n))
  {
  }

  lemma ChargedQueries(transfer: U64, query: U64, n: U64)
    ensures SaturatingAdd(transfer, SaturatingMul(query, n)) == Sat(transfer + Product(query, n))
  {
    hide Product;
    Multiplied(query, n);
    SatAddSat(transfer, Product(query, n));
  }

  function TokenCreationPrice(params: NativeFeeParams, config: GasConfig, shift: nat): U64 {
    var base := if config.HasGasModelV2() then config.policyFeeCreateTokenBase else config.gasFeeCreateTokenBase;
    var symbol: U64 :=
      if params.symbolLength > 0 then
        HalvedPrice(if config.HasGasModelV2() then config.policyFeeCreateTokenSymbol else config.gasFeeCreateTokenSymbol, shift)
      else 0;
    SaturatingAdd(base, symbol)
  }

  lemma TokenCreationPriceIs(params: NativeFeeParams, config: GasConfig)
    requires LengthPriceable(params.symbolLength, config.maxTokenSymbolLength)
    ensures TokenCreationPrice(params, config, SymbolShift(params.symbolLength, config.maxTokenSymbolLength))
         == Sat(CreationPrice(params, config))
  {
    hide ShiftDown, Sat;
  }

  /** The model of one operation, per kind. */
  method BuildOperationModel(kind: NativeFeeKind, config: GasConfig, params: NativeFeeParams) returns (ok: bool, model: OperationModel)
    requires params.SizesFit() && params.count >= 1
    ensures ok <==> Accepted(NativeFeePart(kind, params), config)
    ensures ok ==> model == Narrow(PartCharges(NativeFeePart(kind, params), config))
    ensures !ok ==> model == NO_MODEL
  {
    hide Sat, Narrow, Product, InstanceRows, RowQuanta, ReturnCharges, CreationPrice, MintWork, Halved, LengthPriceable, ReturnsAccepted,
         MintCharges, BurnCharges, CreationCharges;
    var v2 := config.HasGasModelV2();
    var freeBalanceRows := FreeToken(params.tokenId, config);
    var recipientRow: U64 := if params.facts.recipientHoldsToken || freeBalanceRows then 0 else 1;
    var burntRow: U64 := if params.facts.tokenBurnedBefore || freeBalanceRows then 0 else 1;
    var supplyRow: U64 := if params.facts.supplyRowExists || freeBalanceRows then 0 else 1;
    var balanceResultBytes: U64 := if params.facts.bigFungible then 33 else 9;
    var infusionQuery: U64 := if params.toIsNftAddress then config.gasFeeQuery else 0;
    ok, model := true, NO_MODEL;
    ghost var charges := PartCharges(NativeFeePart(kind, params), config);
    match kind
    case TransferFungible =>
      NarrowRows(charges, recipientRow);
      model := model.(workUnits := SaturatingAdd(config.gasFeeTransfer, infusionQuery), newQuanta := recipientRow);
    case TransferNonFungible =>
      Multiplied(config.gasFeeTransfer, params.count);
      SatAddSat(Product(config.gasFeeTransfer, params.count), infusionQuery);
      NarrowRows(charges, (params.count as nat) + recipientRow);
      model := model.(workUnits := SaturatingAdd(SaturatingMul(config.gasFeeTransfer, params.count), infusionQuery),
                      newQuanta := (params.count as nat) + recipientRow, deletedQuanta := params.count);
    case MintFungible =>
      NarrowRows(charges, recipientRow + supplyRow);
      model := model.(workUnits := SaturatingAdd(config.gasFeeTransfer, infusionQuery), resultBytes := balanceResultBytes,
                      newQuanta := recipientRow + supplyRow);
    case BurnFungible =>
      NarrowRows(charges, burntRow + supplyRow);
      model := model.(workUnits := config.gasFeeTransfer, resultBytes := balanceResultBytes, newQuanta := burntRow + supplyRow);
    case MintNonFungible =>
      model := BuildMintModel(config, params, recipientRow + supplyRow, infusionQuery);
    case MintPhantasmaNonFungible =>
      ok, model := BuildPhantasmaMintModel(config, params, recipientRow + supplyRow, infusionQuery);
    case BurnNonFungible =>
      ok, model := BuildBurnModel(config, params, burntRow + supplyRow);
    case CreateToken =>
      ok, model := BuildCreationModel(config, params);
    case CreateTokenSeries =>
      var quanta: U64 := StorageQuantaFor(13 + (params.seriesInfoBytes as nat)) + 1 + (if params.facts.seriesHasMetaId then 1 else 0);
      NarrowRows(charges, quanta);
      model := model.(workUnits := if v2 then 0 else config.gasFeeCreateTokenSeries,
                      policyFee := if v2 then config.policyFeeCreateTokenSeries else 0, resultBytes := 4, newQuanta := quanta);
    case RegisterName =>
      ok, model := BuildNameModel(config, params);
    case Script =>
      NarrowRows(charges, params.scriptStorageQuanta);
      model := model.(workUnits := params.scriptUnitsAllowance, resultBytes := params.scriptEventBytes,
                      newQuanta := params.scriptStorageQuanta);
  }

  lemma NarrowRows(c: Charges, rows: U64)
    requires c.result < 0x1_0000_0000_0000_0000 && c.deleted < 0x1_0000_0000_0000_0000 && c.rows == rows
    ensures Narrow(c) == OperationModel(Sat(c.work), Sat(c.policy), c.result, rows, c.deleted)
    ensures c.work < 0x1_0000_0000_0000_0000 ==> Sat(c.work) == c.work
    ensures c.policy < 0x1_0000_0000_0000_0000 ==> Sat(c.policy) == c.policy
  {
  }

  lemma Small()
    ensures forall x: U64 :: Sat(x) == x
    ensures forall x: U64 :: Wrap(x) == x
  {
  }

  method BuildMintModel(config: GasConfig, params: NativeFeeParams, ownRows: U64, lookup: U64) returns (model: OperationModel)
    requires params.SizesFit() && params.count >= 1
    requires ownRows == RecipientRow(params, config) + SupplyRow(params, config) && lookup == Lookup(params, config)
    ensures model == Narrow(PartCharges(NativeFeePart(MintNonFungible, params), config))
  {
    hide Sat, Wrap, Product, InstanceRows;
    var quanta := SumRawRows(params, ownRows);
    Multiplied(config.gasFeeTransfer, params.count);
    SatAddSat(Product(config.gasFeeTransfer, params.count), lookup);
    Small();
    model := OperationModel(SaturatingAdd(SaturatingMul(config.gasFeeTransfer, params.count), lookup), 0,
                            4 + 8 * (params.count as nat), quanta, 0);
  }

  method BuildPhantasmaMintModel(config: GasConfig, params: NativeFeeParams, ownRows: U64, lookup: U64)
    returns (ok: bool, model: OperationModel)
    requires params.SizesFit() && params.count >= 1
    requires ownRows == RecipientRow(params, config) + SupplyRow(params, config) && lookup == Lookup(params, config)
    ensures ok <==> Accepted(NativeFeePart(MintPhantasmaNonFungible, params), config)
    ensures ok ==> model == Narrow(PartCharges(NativeFeePart(MintPhantasmaNonFungible, params), config))
    ensures !ok ==> model == NO_MODEL
  {
    hide Sat, Wrap, MintWork, InstanceRows;
    var quanta := SumCanonicalRows(params, ownRows);
    var seriesSupplyQueries: U32 := if params.facts.duplicatedSeries then DistinctSeries(params) else 0;
    if params.facts.duplicatedSeries && seriesSupplyQueries == 0 {
      return false, NO_MODEL;
    }
    PhantasmaMintWorkIs(params, config, seriesSupplyQueries);
    SatAddSat(MintWork(params, config), lookup);
    Small();
    ok := true;
    model := OperationModel(SaturatingAdd(PhantasmaMintWork(params, config, seriesSupplyQueries), lookup), 0,
                            4 + 40 * (params.count as nat), quanta, 0);
  }

  method BuildBurnModel(config: GasConfig, params: NativeFeeParams, ownRows: U64) returns (ok: bool, model: OperationModel)
    requires params.SizesFit() && params.count >= 1
    requires ownRows == BurntRow(params, config) + SupplyRow(params, config)
    ensures ok <==> ReturnsAccepted(params.infusions)
    ensures ok ==> model == Narrow(PartCharges(NativeFeePart(BurnNonFungible, params), config))
    ensures !ok ==> model == NO_MODEL
  {
    hide Sat, Wrap, Product, InstanceRows, ReturnCharges, ReturnsAccepted;
    var deleted := SumRawRows(params, 0);
    var returned;
    ok, returned := ReturnedAssets(params.infusions, config);
    if !ok {
      return false, NO_MODEL;
    }
    var each := SaturatingAdd(config.gasFeeTransfer, SaturatingMul(config.gasFeeQuery, 2));
    ghost var charges := ReturnCharges(params.infusions, config);
    ghost var wide: nat := config.gasFeeTransfer + Product(config.gasFeeQuery, 2);
    ChargedQueries(config.gasFeeTransfer, config.gasFeeQuery, 2);
    SatProduct(each, wide, params.count);
    SumOfSats(Product(wide, params.count), charges.work);
    WrapWrap(charges.rows, ownRows);
    WrapWrap(charges.deleted, deleted);
    Small();
    model := OperationModel(SaturatingAdd(SaturatingMul(each, params.count), returned.workUnits), 0, 0,
                            WrapAdd(ownRows, returned.newQuanta), WrapAdd(deleted, returned.deletedQuanta));
  }

  method BuildCreationModel(config: GasConfig, params: NativeFeeParams) returns (ok: bool, model: OperationModel)
    requires params.SizesFit() && params.count >= 1
    ensures ok <==> LengthPriceable(params.symbolLength, config.maxTokenSymbolLength)
    ensures ok ==> model == Narrow(PartCharges(NativeFeePart(CreateToken, params), config))
    ensures !ok ==> model == NO_MODEL
  {
    hide Sat, Narrow, Product, LengthPriceable, CreationPrice, RowQuanta;
    var v2 := config.HasGasModelV2();
    var shift := SymbolShift(params.symbolLength, config.maxTokenSymbolLength);
    if shift == -1 {
      return false, NO_MODEL;
    }
    var quanta: U64 := (if params.symbolLength > 0 then 1 else 0) + StorageQuantaFor(9 + (params.tokenInfoBytes as nat)) + 1
      + (if params.nonFungible then 1 else 0) + (if params.hasPreBurn then 1 else 0) + (if params.hasInflationSchedule then 1 else 0);
    var price := TokenCreationPrice(params, config, shift);
    TokenCreationPriceIs(params, config);
    var lookups: U64 := (if params.hasStakingOrganisation then 1 else 0) + (if params.hasStakingRewardToken then 1 else 0);
    var metadataQueries := SaturatingMul(config.gasFeeQuery, lookups);
    Multiplied(config.gasFeeQuery, lookups);
    SumOfSats(CreationPrice(params, config), Product(config.gasFeeQuery, lookups));
    NarrowRows(PartCharges(NativeFeePart(CreateToken, params), config), quanta);
    ok := true;
    model := OperationModel(SaturatingAdd(if v2 then 0 else price, metadataQueries), if v2 then price else 0, 8, quanta, 0);
  }

  method BuildNameModel(config: GasConfig, params: NativeFeeParams) returns (ok: bool, model: OperationModel)
    requires params.SizesFit() && params.count >= 1
    ensures ok <==> params.nameLength > 0 && LengthPriceable(params.nameLength, config.maxNameLength)
    ensures ok ==> model == Narrow(PartCharges(NativeFeePart(RegisterName, params), config))
    ensures !ok ==> model == NO_MODEL
  {
    hide Sat, Wrap, ShiftDown, LengthPriceable;
    var v2 := config.HasGasModelV2();
    if params.nameLength == 0 {
      return false, NO_MODEL;
    }
    var shift := SymbolShift(params.nameLength, config.maxNameLength);
    if shift == -1 {
      return false, NO_MODEL;
    }
    Small();
    ok := true;
    model := NO_MODEL.(workUnits := if v2 then 0 else HalvedPrice(config.gasFeeRegisterName, shift),
                       policyFee := if v2 then HalvedPrice(config.policyFeeRegisterName, shift) else 0);
  }

  method PartModel(part: NativeFeePart, config: GasConfig) returns (ok: bool, model: OperationModel)
    requires part.params.SizesFit()
    ensures ok <==> Accepted(part, config)
    ensures ok ==> model == Narrow(PartCharges(part, config))
    ensures !ok ==> model == NO_MODEL
  {
    if part.params.count < 1 {
      return false, NO_MODEL;
    }
    hide PartCharges, Narrow, Accepted;
    ok, model := BuildOperationModel(part.kind, config, part.params);
  }
}
