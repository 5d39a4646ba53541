/** What each operation is charged, in the words of the configuration and the parameters alone. */
module FeePrices {
  import opened Wrappers
  import opened Words64
  import opened Positional
  import opened GasConfigs
  import opened FeeModel
  import opened FeeEstimator
  import opened FeeSettlement

  // ---- sums ---------------------------------------------------------------------------------

  function Added(xs: seq<nat>): nat {
    if xs == [] then 0 else Added(xs[..|xs| - 1]) + xs[|xs| - 1]
  }

  /** The gas token's and the data token's balance rows are free. */
  predicate Free(tokenId: U64, c: GasConfig) {
    tokenId == c.gasTokenId || tokenId == c.dataTokenId
  }

  // ---- fungible tokens ----------------------------------------------------------------------

  /** One transfer fee, a query for the owner of an NFT address, and the recipient's balance row. */
  lemma TransferPrice(p: NativeFeeParams, c: GasConfig)
    requires p.SizesFit()
    ensures PartCharges(NativeFeePart(TransferFungible, p), c) ==
      Charges(c.gasFeeTransfer + (if p.toIsNftAddress then c.gasFeeQuery else 0), 0, 0,
              if p.facts.recipientHoldsToken || Free(p.tokenId, c) then 0 else 1, 0)
  {
  }

  /** Adds the supply row, and answers the balance in 33 or 9 bytes. */
  lemma MintPrice(p: NativeFeeParams, c: GasConfig)
    requires p.SizesFit()
    ensures PartCharges(NativeFeePart(MintFungible, p), c) ==
      Charges(c.gasFeeTransfer + (if p.toIsNftAddress then c.gasFeeQuery else 0), 0, if p.facts.bigFungible then 33 else 9,
              (if p.facts.recipientHoldsToken || Free(p.tokenId, c) then 0 else 1) + (if p.facts.supplyRowExists || Free(p.tokenId, c) then 0 else 1), 0)
  {
  }

  /** One transfer fee, the burnt counter row and the supply row. */
  lemma BurnPrice(p: NativeFeeParams, c: GasConfig)
    requires p.SizesFit()
    ensures PartCharges(NativeFeePart(BurnFungible, p), c) ==
      Charges(c.gasFeeTransfer, 0, if p.facts.bigFungible then 33 else 9,
              (if p.facts.tokenBurnedBefore || Free(p.tokenId, c) then 0 else 1) + (if p.facts.supplyRowExists || Free(p.tokenId, c) then 0 else 1), 0)
  {
  }

  // ---- instances ----------------------------------------------------------------------------

  /** A transfer fee per instance; each moves one row, and the recipient's balance row may be new. */
  lemma InstanceTransferPrice(p: NativeFeeParams, c: GasConfig)
    requires p.SizesFit()
    ensures PartCharges(NativeFeePart(TransferNonFungible, p), c) ==
      Charges((c.gasFeeTransfer as nat) * p.count + (if p.toIsNftAddress then c.gasFeeQuery else 0), 0, 0,
              p.count + (if p.facts.recipientHoldsToken || Free(p.tokenId, c) then 0 else 1), p.count)
  {
  }

  /** The rows of each instance as it is minted: the row with the ROM behind 62 bytes, the owner row and
      the lookup row, a meta-id row where the ROM has one, and the RAM behind 17 bytes where there is any. */
  predicate RowsOfInstances(p: NativeFeeParams, rows: seq<nat>)
    requires p.SizesFit()
  {
    |rows| == p.count && forall i :: 0 <= i < |rows| ==>
      var rom: nat := if p.romBytesPerInstance.Some? then p.romBytesPerInstance.value[i] else p.romBytes;
      var ram: nat := if p.ramBytesPerInstance.Some? then p.ramBytesPerInstance.value[i] else p.ramBytes;
      rows[i] == (62 + rom + 1023) / 1024 + 2 + (if p.facts.romHasMetaId then 1 else 0) + (if ram > 0 then (17 + ram + 1023) / 1024 else 0)
  }

  /** A Phantasma mint stores the ROM twice with 36 bytes between, and always a meta id. */
  predicate RowsOfCanonical(p: NativeFeeParams, rows: seq<nat>)
    requires p.SizesFit()
  {
    |rows| == p.count && forall i :: 0 <= i < |rows| ==>
      var rom: nat := if p.romBytesPerInstance.Some? then p.romBytesPerInstance.value[i] else p.romBytes;
      var ram: nat := if p.ramBytesPerInstance.Some? then p.ramBytesPerInstance.value[i] else p.ramBytes;
      rows[i] == (62 + rom + rom + 36 + 1023) / 1024 + 3 + (if ram > 0 then (17 + ram + 1023) / 1024 else 0)
  }

  lemma RowOfOne(p: NativeFeeParams, rows: seq<nat>, i: nat, canonical: bool)
    requires p.SizesFit() && i < p.count && (if canonical then RowsOfCanonical(p, rows) else RowsOfInstances(p, rows))
    ensures i < |rows| && InstanceQuanta(p, i, canonical) == rows[i]
  {
  }

  lemma {:induction false} RowsAdded(p: NativeFeeParams, rows: seq<nat>, n: nat, canonical: bool)
    requires p.SizesFit() && n <= p.count <= |rows| && (if canonical then RowsOfCanonical(p, rows) else RowsOfInstances(p, rows))
    ensures InstanceRows(p, n, canonical) == Added(rows[..n])
  {
    hide RowsOfCanonical, RowsOfInstances, InstanceQuanta;
    if n > 0 {
      RowsAdded(p, rows, n - 1, canonical);
      RowOfOne(p, rows, n - 1, canonical);
      assert rows[..n][..n - 1] == rows[..n - 1];
    }
  }

  lemma InstanceMintPrice(p: NativeFeeParams, c: GasConfig, rows: seq<nat>)
    requires p.SizesFit() && RowsOfInstances(p, rows)
    ensures PartCharges(NativeFeePart(MintNonFungible, p), c) ==
      Charges((c.gasFeeTransfer as nat) * p.count + (if p.toIsNftAddress then c.gasFeeQuery else 0), 0, 4 + 8 * (p.count as nat),
              (if p.facts.recipientHoldsToken || Free(p.tokenId, c) then 0 else 1) + (if p.facts.supplyRowExists || Free(p.tokenId, c) then 0 else 1)
              + Added(rows), 0)
  {
    hide InstanceRows, Added, RowsOfInstances;
    AsMany(p, rows);
    RowsAdded(p, rows, p.count, false);
  }

  lemma AsMany(p: NativeFeeParams, rows: seq<nat>)
    requires p.SizesFit() && (RowsOfInstances(p, rows) || RowsOfCanonical(p, rows))
    ensures |rows| == p.count && rows[..p.count] == rows
  {
  }

  /** Two queries per instance, or three for a duplicated series, whose supplies are read once each. */
  lemma PhantasmaMintPrice(p: NativeFeeParams, c: GasConfig, rows: seq<nat>)
    requires p.SizesFit() && RowsOfCanonical(p, rows)
    ensures PartCharges(NativeFeePart(MintPhantasmaNonFungible, p), c) ==
      Charges(((c.gasFeeTransfer as nat) + (c.gasFeeQuery as nat) * (if p.facts.duplicatedSeries then 3 else 2)) * p.count
              + (c.gasFeeQuery as nat) * (if p.facts.duplicatedSeries then p.distinctSeriesCount else 0)
              + (if p.toIsNftAddress then c.gasFeeQuery else 0), 0, 4 + 40 * (p.count as nat),
              (if p.facts.recipientHoldsToken || Free(p.tokenId, c) then 0 else 1) + (if p.facts.supplyRowExists || Free(p.tokenId, c) then 0 else 1)
              + Added(rows), 0)
  {
    hide InstanceRows, Added, RowsOfCanonical;
    AsMany(p, rows);
    RowsAdded(p, rows, p.count, true);
  }

  // ---- burned instances ---------------------------------------------------------------------

  /** One returned asset: the work of moving it back, the rows it creates and the rows it deletes. */
  predicate ReturnsAsset(a: InfusedAsset, c: GasConfig, work: nat, created: nat, deleted: nat) {
    var balance := if a.burnerHoldsToken || Free(a.tokenId, c) then 0 else 1;
    if a.nonFungible then
      && work == (c.gasFeeQuery as nat) + c.gasFeeQuery + (c.gasFeeTransfer as nat) * a.instanceCount
      && created == balance + a.instanceCount && deleted == (if a.instanceCount == 0xFFFF_FFFF then 0 else 1 + (a.instanceCount as nat))
    else
      work == (c.gasFeeTransfer as nat) + c.gasFeeQuery && created == balance && deleted == (if Free(a.tokenId, c) then 0 else 1)
  }

  predicate ReturnsAssets(assets: seq<InfusedAsset>, c: GasConfig, work: seq<nat>, created: seq<nat>, deleted: seq<nat>) {
    |work| == |created| == |deleted| == |assets| &&
    forall i :: 0 <= i < |assets| ==> ReturnsAsset(assets[i], c, work[i], created[i], deleted[i])
  }

  lemma ReturnIs(a: InfusedAsset, c: GasConfig, work: nat, created: nat, deleted: nat)
    requires ReturnsAsset(a, c, work, created, deleted)
    ensures ReturnCharge(a, c) == Charges(work, 0, 0, created, deleted)
  {
    if a.instanceCount == 0xFFFF_FFFF {
      assert (1 + (a.instanceCount as nat)) % 0x1_0000_0000 == 0;
    }
  }

  lemma {:induction false} ReturnsAdded(assets: seq<InfusedAsset>, c: GasConfig, work: seq<nat>, created: seq<nat>, deleted: seq<nat>)
    requires ReturnsAssets(assets, c, work, created, deleted)
    ensures ReturnCharges(assets, c) == Charges(Added(work), 0, 0, Added(created), Added(deleted))
  {
    hide ReturnsAsset, ReturnCharge;
    if assets != [] {
      var n := |assets| - 1;
      ReturnsAdded(assets[..n], c, work[..n], created[..n], deleted[..n]);
      ReturnIs(assets[n], c, work[n], created[n], deleted[n]);
    }
  }

  /** A transfer fee and two queries per instance, and what the returned assets cost; the rows of the
      instances and of their addresses are deleted. */
  lemma InstanceBurnPrice(p: NativeFeeParams, c: GasConfig, rows: seq<nat>, work: seq<nat>, created: seq<nat>, deleted: seq<nat>)
    requires p.SizesFit() && RowsOfInstances(p, rows) && ReturnsAssets(p.infusions, c, work, created, deleted)
    ensures PartCharges(NativeFeePart(BurnNonFungible, p), c) ==
      Charges(((c.gasFeeTransfer as nat) + (c.gasFeeQuery as nat) * 2) * p.count + Added(work), 0, 0,
              (if p.facts.tokenBurnedBefore || Free(p.tokenId, c) then 0 else 1) + (if p.facts.supplyRowExists || Free(p.tokenId, c) then 0 else 1)
              + Added(created), Added(rows) + Added(deleted))
  {
    hide InstanceRows, Added, RowsOfInstances, ReturnCharges, ReturnsAssets;
    AsMany(p, rows);
    RowsAdded(p, rows, p.count, false);
    ReturnsAdded(p.infusions, c, work, created, deleted);
  }

  // ---- creations and the rest ---------------------------------------------------------------

  /** The symbol's row where there is a symbol, the info row behind 9 bytes and the supply row, and one
      row each for instances, a pre-burn and an inflation schedule. */
  predicate RowsOfCreation(p: NativeFeeParams, rows: nat) {
    rows == (9 + (p.tokenInfoBytes as nat) + 1023) / 1024 + 1 + (if p.symbolLength > 0 then 1 else 0) + (if p.nonFungible then 1 else 0)
            + (if p.hasPreBurn then 1 else 0) + (if p.hasInflationSchedule then 1 else 0)
  }

  /** A base price, and a symbol price halved for each character after the first: policy fees under model
      v2, work under model v1. */
  lemma CreationPriced(p: NativeFeeParams, c: GasConfig, rows: nat)
    requires p.SizesFit() && RowsOfCreation(p, rows)
    ensures
      var queries := (if p.hasStakingOrganisation then c.gasFeeQuery else 0) + (if p.hasStakingRewardToken then c.gasFeeQuery as nat else 0);
      PartCharges(NativeFeePart(CreateToken, p), c) ==
        if c.version == 0 then
          Charges((c.gasFeeCreateTokenBase as nat) + (if p.symbolLength == 0 then 0 else OverPower(c.gasFeeCreateTokenSymbol, p.symbolLength - 1)) + queries, 0, 8, rows, 0)
        else
          Charges(queries, (c.policyFeeCreateTokenBase as nat) + (if p.symbolLength == 0 then 0 else OverPower(c.policyFeeCreateTokenSymbol, p.symbolLength - 1)), 8, rows, 0)
  {
    hide Pow;
    PowersPositive(p.symbolLength);
  }

  function OverPower(x: nat, k: nat): nat {
    PowersPositive(k);
    Quotients(x, Pow(2, k));
    x / Pow(2, k)
  }

  lemma {:induction false} PowersPositive(k: nat)
    ensures Pow(2, k) > 0
  {
    if k > 0 { PowersPositive(k - 1); }
  }

  /** The info row behind 13 bytes, the supply row, and the meta-id row where there is one. */
  lemma SeriesPrice(p: NativeFeeParams, c: GasConfig)
    requires p.SizesFit()
    ensures
      var rows := (13 + (p.seriesInfoBytes as nat) + 1023) / 1024 + 1 + (if p.facts.seriesHasMetaId then 1 else 0);
      PartCharges(NativeFeePart(CreateTokenSeries, p), c) ==
        if c.version == 0 then Charges(c.gasFeeCreateTokenSeries, 0, 4, rows, 0) else Charges(0, c.policyFeeCreateTokenSeries, 4, rows, 0)
  {
  }

  /** The price of a name, halved for each character after the first; its rows are free. */
  lemma NamePrice(p: NativeFeeParams, c: GasConfig)
    requires p.SizesFit() && p.nameLength > 0
    ensures PartCharges(NativeFeePart(RegisterName, p), c) ==
      if c.version == 0 then Charges(OverPower(c.gasFeeRegisterName, p.nameLength - 1), 0, 0, 0, 0)
      else Charges(0, OverPower(c.policyFeeRegisterName, p.nameLength - 1), 0, 0, 0)
  {
    hide Pow;
  }

  /** A script is charged what it is allowed. */
  lemma ScriptPrice(p: NativeFeeParams, c: GasConfig)
    requires p.SizesFit()
    ensures PartCharges(NativeFeePart(Script, p), c) == Charges(p.scriptUnitsAllowance, 0, p.scriptEventBytes, p.scriptStorageQuanta, 0)
  {
  }

  // ---- refusals -----------------------------------------------------------------------------

  predicate TooLong(length: U32, maxLength: U8) {
    length > 64 || (maxLength > 0 && length > maxLength)
  }

  /** What the calculator refuses, kind by kind. */
  lemma RefusedExactly(kind: NativeFeeKind, p: NativeFeeParams, c: GasConfig)
    ensures !Accepted(NativeFeePart(kind, p), c) <==>
      || p.count == 0
      || (kind.MintPhantasmaNonFungible? && p.facts.duplicatedSeries && (p.distinctSeriesCount == 0 || p.distinctSeriesCount > p.count))
      || (kind.BurnNonFungible? && exists i :: 0 <= i < |p.infusions| && p.infusions[i].nonFungible && p.infusions[i].instanceCount == 0)
      || (kind.CreateToken? && TooLong(p.symbolLength, c.maxTokenSymbolLength))
      || (kind.RegisterName? && (p.nameLength == 0 || TooLong(p.nameLength, c.maxNameLength)))
  {
  }

  // ---- what a price does not depend on ------------------------------------------------------

  /** The fields a price is made of. */
  predicate SamePrices(c: GasConfig, d: GasConfig) {
    && c.gasTokenId == d.gasTokenId && c.dataTokenId == d.dataTokenId && c.gasFeeTransfer == d.gasFeeTransfer && c.gasFeeQuery == d.gasFeeQuery
    && (c.version == 0 <==> d.version == 0)
    && (c.version == 0 ==>
         && c.gasFeeCreateTokenBase == d.gasFeeCreateTokenBase && c.gasFeeCreateTokenSymbol == d.gasFeeCreateTokenSymbol
         && c.gasFeeCreateTokenSeries == d.gasFeeCreateTokenSeries && c.gasFeeRegisterName == d.gasFeeRegisterName)
    && (c.version != 0 ==>
         && c.policyFeeCreateTokenBase == d.policyFeeCreateTokenBase && c.policyFeeCreateTokenSymbol == d.policyFeeCreateTokenSymbol
         && c.policyFeeCreateTokenSeries == d.policyFeeCreateTokenSeries && c.policyFeeRegisterName == d.policyFeeRegisterName)
  }

  lemma {:induction false} ReturnsIgnore(assets: seq<InfusedAsset>, c: GasConfig, d: GasConfig)
    requires c.gasTokenId == d.gasTokenId && c.dataTokenId == d.dataTokenId && c.gasFeeTransfer == d.gasFeeTransfer && c.gasFeeQuery == d.gasFeeQuery
    ensures ReturnCharges(assets, c) == ReturnCharges(assets, d)
  {
    if assets != [] { ReturnsIgnore(assets[..|assets| - 1], c, d); }
  }

  predicate SameTokens(c: GasConfig, d: GasConfig) {
    c.gasTokenId == d.gasTokenId && c.dataTokenId == d.dataTokenId && c.gasFeeTransfer == d.gasFeeTransfer && c.gasFeeQuery == d.gasFeeQuery
  }

  lemma MintAndBurnIgnore(p: NativeFeeParams, c: GasConfig, d: GasConfig, canonical: bool)
    requires p.SizesFit() && SameTokens(c, d)
    ensures MintCharges(p, c, canonical) == MintCharges(p, d, canonical) && BurnCharges(p, c) == BurnCharges(p, d)
  {
    hide ReturnCharges, InstanceRows, Product;
    ReturnsIgnore(p.infusions, c, d);
  }

  lemma CreationIgnores(p: NativeFeeParams, c: GasConfig, d: GasConfig)
    requires SamePrices(c, d)
    ensures CreationCharges(p, c) == CreationCharges(p, d)
  {
    hide Product, ShiftDown;
  }

  /** No other field of the configuration changes what an operation is charged; and but for creations and
      names, nothing does beside the two fees and the two free tokens. */
  lemma PriceIgnores(part: NativeFeePart, c: GasConfig, d: GasConfig)
    requires part.params.SizesFit()
    requires SamePrices(c, d) || (SameTokens(c, d) && part.kind != CreateToken && part.kind != CreateTokenSeries && part.kind != RegisterName)
    ensures PartCharges(part, c) == PartCharges(part, d)
  {
    hide MintCharges, BurnCharges, CreationCharges, Product, ShiftDown;
    match part.kind
    case MintNonFungible => MintAndBurnIgnore(part.params, c, d, false);
    case MintPhantasmaNonFungible => MintAndBurnIgnore(part.params, c, d, true);
    case BurnNonFungible => MintAndBurnIgnore(part.params, c, d, false);
    case CreateToken => CreationIgnores(part.params, c, d);
    case _ =>
  }

  /** A batch is charged the sum of its operations, in every respect. */
  lemma BatchAdds(a: seq<NativeFeePart>, p: NativeFeePart, c: GasConfig)
    requires AllFit(a) && p.params.SizesFit()
    ensures AllFit(a + [p])
    ensures
      var s, x, t := BatchCharges(a, c), PartCharges(p, c), BatchCharges(a + [p], c);
      && t.work == s.work + x.work && t.policy == s.policy + x.policy && t.result == s.result + x.result
      && t.rows == s.rows + x.rows && t.deleted == s.deleted + x.deleted
    ensures BatchCharges([], c) == Charges(0, 0, 0, 0, 0)
  {
    hide PartCharges, NativeFeeParams.SizesFit;
    assert (a + [p])[..|a|] == a;
  }
}
