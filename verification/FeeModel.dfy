/** The on-chain gas configuration. Version 0 has no fields after gasBurnRatioShift on the wire. */
module GasConfigs {
  import opened Words64

  datatype GasConfig = GasConfig(
    version: U8, maxNameLength: U8, maxTokenSymbolLength: U8, feeShift: U8, maxStructureSize: U32,
    feeMultiplier: U64, gasTokenId: U64, dataTokenId: U64, minimumGasOffer: U64, dataEscrowPerRow: U64,
    gasFeeTransfer: U64, gasFeeQuery: U64, gasFeeCreateTokenBase: U64, gasFeeCreateTokenSymbol: U64,
    gasFeeCreateTokenSeries: U64, gasFeePerByte: U64, gasFeeRegisterName: U64, gasBurnRatioMul: U64, gasBurnRatioShift: U8,
    minimumGasBill: U64, gasProducerRatioMul: U64, gasProducerRatioShift: U8, gasDappRatioMul: U64, gasDappRatioShift: U8,
    policyFeeCreateTokenBase: U64, policyFeeCreateTokenSymbol: U64, policyFeeCreateTokenSeries: U64,
    policyFeeRegisterName: U64, legacyDataEscrowPerRow: U64)
  {
    predicate HasGasModelV2() {
      version >= 1
    }
  }
}

/** What an operation costs, on unbounded numbers: the inputs of the fee calculator and, per
    operation, its charges. The calculator itself works on 64-bit words (see FeeEstimator). */
module FeeModel {
  import opened Words64
  import opened GasConfigs
  import opened Wrappers
  import opened Positional

  datatype NativeFeeKind =
    | TransferFungible | TransferNonFungible | MintFungible | MintNonFungible | MintPhantasmaNonFungible
    | BurnFungible | BurnNonFungible | CreateToken | CreateTokenSeries | RegisterName | Script

  datatype InfusedAsset = InfusedAsset(tokenId: U64, nonFungible: bool, burnerHoldsToken: bool, instanceCount: U32)

  /** Facts about chain state that a message does not carry. */
  datatype StateFacts = StateFacts(
    recipientHoldsToken: bool, bigFungible: bool, tokenBurnedBefore: bool, supplyRowExists: bool,
    duplicatedSeries: bool, romHasMetaId: bool, seriesHasMetaId: bool)

  const COSTLIEST := StateFacts(false, true, false, false, true, true, true)
  const CHEAPEST := StateFacts(true, false, true, true, false, false, false)

  datatype NativeFeeParams = NativeFeeParams(
    facts: StateFacts, count: U32, tokenId: U64, toIsNftAddress: bool, infusions: seq<InfusedAsset>,
    symbolLength: U32, tokenInfoBytes: U32, nonFungible: bool, hasPreBurn: bool, hasInflationSchedule: bool,
    hasStakingOrganisation: bool, hasStakingRewardToken: bool, seriesInfoBytes: U32, nameLength: U32,
    romBytes: U32, romBytesPerInstance: Option<seq<U32>>, ramBytes: U32, ramBytesPerInstance: Option<seq<U32>>,
    distinctSeriesCount: U32, scriptUnitsAllowance: U64, scriptEventBytes: U32, scriptStorageQuanta: U32)
  {
    /** The per-instance size lists, when given, have one entry per instance. */
    predicate SizesFit() {
      && (romBytesPerInstance.Some? ==> |romBytesPerInstance.value| == count)
      && (ramBytesPerInstance.Some? ==> |ramBytesPerInstance.value| == count)
    }

    function RomSizeAt(i: nat): U32
      requires SizesFit() && i < count
    {
      if romBytesPerInstance.Some? then romBytesPerInstance.value[i] else romBytes
    }

    function RamSizeAt(i: nat): U32
      requires SizesFit() && i < count
    {
      if ramBytesPerInstance.Some? then ramBytesPerInstance.value[i] else ramBytes
    }
  }

  /** Every fact defaults to its costlier reading. */
  const DEFAULT_PARAMS := NativeFeeParams(
    COSTLIEST, 1, U64_MAX, false, [], 0, 0, false, false, false, false, false, 0, 0,
    0, None, 0, None, 1, 5000, 512, 4)

  datatype NativeFeePart = NativeFeePart(kind: NativeFeeKind, params: NativeFeeParams)

  /** The charges of one or more operations, without any bound. */
  datatype Charges = Charges(work: nat, policy: nat, result: nat, rows: nat, deleted: nat)

  const NOTHING := Charges(0, 0, 0, 0, 0)

  function Plus(a: Charges, b: Charges): Charges {
    Charges(a.work + b.work, a.policy + b.policy, a.result + b.result, a.rows + b.rows, a.deleted + b.deleted)
  }

  lemma NothingPlus(c: Charges)
    requires c.work == c.policy == c.result == c.rows == c.deleted == 0
    ensures Plus(c, c) == c
  {
  }

  function Flag(b: bool): nat {
    if b then 1 else 0
  }

  /** Rows are escrowed per started 1024 bytes of key and value. */
  function RowQuanta(bytes: nat): nat {
    (bytes + 1023) / 1024
  }

  predicate FreeToken(tokenId: U64, config: GasConfig) {
    tokenId == config.gasTokenId || tokenId == config.dataTokenId
  }

  // ---- rows of NFT instances ----------------------------------------------------------------

  /** The instance row with its ROM, the owner row and the lookup row, a RAM row when there is RAM,
      and the meta-id row. A canonical ROM holds the submitted one twice and always has an id. */
  function InstanceQuanta(p: NativeFeeParams, i: nat, canonical: bool): nat
    requires p.SizesFit() && i < p.count
  {
    (if canonical then RowQuanta(62 + (p.RomSizeAt(i) as nat) * 2 + 36) + 3
     else RowQuanta(62 + (p.RomSizeAt(i) as nat)) + 2 + Flag(p.facts.romHasMetaId))
    + (if p.RamSizeAt(i) > 0 then RowQuanta(17 + (p.RamSizeAt(i) as nat)) else 0)
  }

  /** The rows of the first n instances. */
  function InstanceRows(p: NativeFeeParams, n: nat, canonical: bool): nat
    requires p.SizesFit() && n <= p.count
  {
    if n == 0 then 0 else InstanceRows(p, n - 1, canonical) + InstanceQuanta(p, n - 1, canonical)
  }

  // ---- assets a burn gives back -------------------------------------------------------------

  /** One returned asset. The deleted lookup rows of an NFT asset are counted in 32 bits, as
      1 + instanceCount is computed on that width. */
  function ReturnCharge(asset: InfusedAsset, config: GasConfig): Charges {
    var free := FreeToken(asset.tokenId, config);
    var balance := Flag(!(asset.burnerHoldsToken || free));
    if asset.nonFungible then
      Charges((config.gasFeeQuery as nat) * 2 + Product(config.gasFeeTransfer, asset.instanceCount), 0, 0,
              balance + asset.instanceCount, (1 + (asset.instanceCount as nat)) % 0x1_0000_0000)
    else
      Charges((config.gasFeeTransfer as nat) + config.gasFeeQuery, 0, 0, balance, Flag(!free))
  }

  function ReturnCharges(assets: seq<InfusedAsset>, config: GasConfig): Charges {
    if assets == [] then NOTHING
    else Plus(ReturnCharges(assets[..|assets| - 1], config), ReturnCharge(assets[|assets| - 1], config))
  }

  predicate ReturnsAccepted(assets: seq<InfusedAsset>) {
    forall i :: 0 <= i < |assets| && assets[i].nonFungible ==> assets[i].instanceCount >= 1
  }

  // ---- one operation ------------------------------------------------------------------------

  predicate LengthPriceable(length: U32, maxLength: U8) {
    length == 0 || ((maxLength == 0 || length - 1 < maxLength) && length <= 64)
  }

  /** The inputs the calculator prices; every other input is refused. */
  predicate Accepted(part: NativeFeePart, config: GasConfig) {
    var p := part.params;
    && p.count >= 1
    && match part.kind
       case MintPhantasmaNonFungible => p.facts.duplicatedSeries ==> 1 <= p.distinctSeriesCount <= p.count
       case BurnNonFungible => ReturnsAccepted(p.infusions)
       case CreateToken => LengthPriceable(p.symbolLength, config.maxTokenSymbolLength)
       case RegisterName => p.nameLength > 0 && LengthPriceable(p.nameLength, config.maxNameLength)
       case _ => true
  }

  /** A price halved once per character after the first. */
  function Halved(price: nat, length: nat): nat {
    ShiftDown(price, if length == 0 then 0 else length - 1)
  }

  function CreationPrice(p: NativeFeeParams, config: GasConfig): nat {
    if config.HasGasModelV2() then
      config.policyFeeCreateTokenBase + (if p.symbolLength > 0 then Halved(config.policyFeeCreateTokenSymbol, p.symbolLength) else 0)
    else
      config.gasFeeCreateTokenBase + (if p.symbolLength > 0 then Halved(config.gasFeeCreateTokenSymbol, p.symbolLength) else 0)
  }

  /** Queries a Phantasma mint costs per instance: the series lookup, the token info, and the token
      info again for a duplicated series. */
  function MintQueries(p: NativeFeeParams): nat {
    if p.facts.duplicatedSeries then 3 else 2
  }

  function MintWork(p: NativeFeeParams, config: GasConfig): nat {
    Product(config.gasFeeTransfer + Product(config.gasFeeQuery, MintQueries(p)), p.count)
    + Product(config.gasFeeQuery, if p.facts.duplicatedSeries then p.distinctSeriesCount else 0)
  }

  /** The balance row of the token's recipient, its supply row and its burnt counter row. */
  function RecipientRow(p: NativeFeeParams, config: GasConfig): nat {
    Flag(!(p.facts.recipientHoldsToken || FreeToken(p.tokenId, config)))
  }

  function SupplyRow(p: NativeFeeParams, config: GasConfig): nat {
    Flag(!(p.facts.supplyRowExists || FreeToken(p.tokenId, config)))
  }

  function BurntRow(p: NativeFeeParams, config: GasConfig): nat {
    Flag(!(p.facts.tokenBurnedBefore || FreeToken(p.tokenId, config)))
  }

  function Lookup(p: NativeFeeParams, config: GasConfig): nat {
    if p.toIsNftAddress then config.gasFeeQuery else 0
  }

  /** An NFT mint; canonical for a deterministic Phantasma mint. */
  function MintCharges(p: NativeFeeParams, config: GasConfig, canonical: bool): Charges
    requires p.SizesFit()
  {
    Charges((if canonical then MintWork(p, config) else Product(config.gasFeeTransfer, p.count)) + Lookup(p, config), 0,
            4 + (if canonical then 40 else 8) * (p.count as nat),
            RecipientRow(p, config) + SupplyRow(p, config) + InstanceRows(p, p.count, canonical), 0)
  }

  function BurnCharges(p: NativeFeeParams, config: GasConfig): Charges
    requires p.SizesFit()
  {
    var returned := ReturnCharges(p.infusions, config);
    Charges(Product(config.gasFeeTransfer + Product(config.gasFeeQuery, 2), p.count) + returned.work, 0, 0,
            BurntRow(p, config) + SupplyRow(p, config) + returned.rows, InstanceRows(p, p.count, false) + returned.deleted)
  }

  function CreationCharges(p: NativeFeeParams, config: GasConfig): Charges {
    var queries := Product(config.gasFeeQuery, Flag(p.hasStakingOrganisation) + Flag(p.hasStakingRewardToken));
    var rows := Flag(p.symbolLength > 0) + RowQuanta(9 + (p.tokenInfoBytes as nat)) + 1
                + Flag(p.nonFungible) + Flag(p.hasPreBurn) + Flag(p.hasInflationSchedule);
    if config.HasGasModelV2() then Charges(queries, CreationPrice(p, config), 8, rows, 0)
    else Charges(CreationPrice(p, config) + queries, 0, 8, rows, 0)
  }

  function PartCharges(part: NativeFeePart, config: GasConfig): Charges
    requires part.params.SizesFit()
  {
    var p := part.params;
    var balanceBytes := if p.facts.bigFungible then 33 else 9;
    match part.kind
    case TransferFungible => Charges(config.gasFeeTransfer + Lookup(p, config), 0, 0, RecipientRow(p, config), 0)
    case TransferNonFungible =>
      Charges(Product(config.gasFeeTransfer, p.count) + Lookup(p, config), 0, 0, p.count + RecipientRow(p, config), p.count)
    case MintFungible => Charges(config.gasFeeTransfer + Lookup(p, config), 0, balanceBytes, RecipientRow(p, config) + SupplyRow(p, config), 0)
    case BurnFungible => Charges(config.gasFeeTransfer, 0, balanceBytes, BurntRow(p, config) + SupplyRow(p, config), 0)
    case MintNonFungible => MintCharges(p, config, false)
    case MintPhantasmaNonFungible => MintCharges(p, config, true)
    case BurnNonFungible => BurnCharges(p, config)
    case CreateToken => CreationCharges(p, config)
    case CreateTokenSeries =>
      var rows := RowQuanta(13 + (p.seriesInfoBytes as nat)) + 1 + Flag(p.facts.seriesHasMetaId);
      if config.HasGasModelV2() then Charges(0, config.policyFeeCreateTokenSeries, 4, rows, 0)
      else Charges(config.gasFeeCreateTokenSeries, 0, 4, rows, 0)
    case RegisterName =>
      if config.HasGasModelV2() then Charges(0, Halved(config.policyFeeRegisterName, p.nameLength), 0, 0, 0)
      else Charges(Halved(config.gasFeeRegisterName, p.nameLength), 0, 0, 0, 0)
    case Script => Charges(p.scriptUnitsAllowance, 0, p.scriptEventBytes, p.scriptStorageQuanta, 0)
  }

  // ---- several operations -------------------------------------------------------------------

  predicate AllFit(parts: seq<NativeFeePart>) {
    forall i :: 0 <= i < |parts| ==> parts[i].params.SizesFit()
  }

  predicate AllAccepted(parts: seq<NativeFeePart>, config: GasConfig) {
    forall i :: 0 <= i < |parts| ==> Accepted(parts[i], config)
  }

  /** A batch costs the sum of its parts. */
  function BatchCharges(parts: seq<NativeFeePart>, config: GasConfig): Charges
    requires AllFit(parts)
  {
    if parts == [] then NOTHING
    else Plus(BatchCharges(parts[..|parts| - 1], config), PartCharges(parts[|parts| - 1], config))
  }
}
