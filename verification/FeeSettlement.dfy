/** One transaction is settled once: the charges of all its operations give one bill, one gas offer
    and one escrow ceiling, under the gas model the configuration selects. */
module FeeSettlement {
  import opened Words64
  import opened GasConfigs
  import opened FeeModel
  import opened FeeEstimator
  import opened Wrappers
  import opened Positional

  datatype NativeFeeEstimate = NativeFeeEstimate(
    maxGas: U64, maxData: U64, expectedGasBill: U64, newStorageQuanta: U64, deletedStorageQuanta: U64)

  const NO_ESTIMATE := NativeFeeEstimate(0, 0, 0, 0, 0)

  datatype TransactionParams = TransactionParams(envelopeBytes: U32, payloadBytes: U32)

  function AtLeast(x: U64, floor: U64): U64 {
    if x < floor then floor else x
  }

  /** The settlement on 64-bit words; None when gas model v2 is given no envelope size. */
  function Settle(totals: OperationModel, config: GasConfig, transaction: TransactionParams): Option<NativeFeeEstimate> {
    var netQuanta: U64 := if totals.newQuanta > totals.deletedQuanta then (totals.newQuanta as nat) - totals.deletedQuanta else 0;
    var maxData := SaturatingMul(totals.newQuanta, config.dataEscrowPerRow);
    if config.HasGasModelV2() then
      if transaction.envelopeBytes == 0 then None
      else
        var blockData := SaturatingAdd(SaturatingAdd(transaction.envelopeBytes, netQuanta), totals.resultBytes);
        var byteUnits := SaturatingMul(blockData, 25);
        var scaled := MulShift(SaturatingAdd(totals.workUnits, byteUnits), config.feeMultiplier, config.feeShift);
        var bill := AtLeast(SaturatingAdd(scaled, totals.policyFee), config.minimumGasBill);
        Some(NativeFeeEstimate(AtLeast(bill, config.minimumGasOffer), maxData, bill, totals.newQuanta, totals.deletedQuanta))
    else
      var work := MulShift(totals.workUnits, config.feeMultiplier, config.feeShift);
      var blockData := SaturatingAdd(SaturatingAdd(transaction.payloadBytes, totals.resultBytes), netQuanta);
      var bill := SaturatingAdd(work, SaturatingMul(blockData, config.gasFeePerByte));
      var byteAllowance := if blockData > 1024 then blockData else 1024;
      var maxGas := SaturatingAdd(SaturatingAdd(SaturatingMul(config.minimumGasOffer, 2), work), SaturatingMul(byteAllowance, config.gasFeePerByte));
      Some(NativeFeeEstimate(maxGas, maxData, bill, totals.newQuanta, totals.deletedQuanta))
  }

  // ---- what the settlement means on unbounded charges ---------------------------------------

  /** Only the net growth of paid storage is block data. */
  function Net(c: Charges): nat {
    if c.rows > c.deleted then c.rows - c.deleted else 0
  }

  predicate NoWrap(c: Charges) {
    c.result < 0x1_0000_0000_0000_0000 && c.rows < 0x1_0000_0000_0000_0000 && c.deleted < 0x1_0000_0000_0000_0000
  }

  /** Gas units of model v2: the work, and 25 per byte of envelope, result and net storage. */
  function GasUnits(c: Charges, envelope: nat): nat {
    c.work + 25 * (envelope + Net(c) + c.result)
  }

  function BillV2(c: Charges, config: GasConfig, envelope: nat): U64 {
    AtLeast(Sat(MulShift(Sat(GasUnits(c, envelope)), config.feeMultiplier, config.feeShift) as nat + c.policy), config.minimumGasBill)
  }

  function BlockData(c: Charges, payload: nat): nat {
    payload + c.result + Net(c)
  }

  function ScaledWork(c: Charges, config: GasConfig): U64 {
    MulShift(Sat(c.work), config.feeMultiplier, config.feeShift)
  }

  function BillV1(c: Charges, config: GasConfig, payload: nat): U64 {
    Sat((ScaledWork(c, config) as nat) + Product(BlockData(c, payload), config.gasFeePerByte))
  }

  function OfferV1(c: Charges, config: GasConfig, payload: nat): U64 {
    var data := BlockData(c, payload);
    Sat((config.minimumGasOffer as nat) * 2 + ScaledWork(c, config) + Product(if data > 1024 then data else 1024, config.gasFeePerByte))
  }

  /** The estimate, straight from the charges. */
  function Priced(c: Charges, config: GasConfig, transaction: TransactionParams): NativeFeeEstimate
    requires NoWrap(c)
  {
    var maxData := Sat(Product(c.rows, config.dataEscrowPerRow));
    if config.HasGasModelV2() then
      var bill := BillV2(c, config, transaction.envelopeBytes);
      NativeFeeEstimate(AtLeast(bill, config.minimumGasOffer), maxData, bill, c.rows, c.deleted)
    else
      NativeFeeEstimate(OfferV1(c, config, transaction.payloadBytes), maxData, BillV1(c, config, transaction.payloadBytes), c.rows, c.deleted)
  }

  predicate Settles(config: GasConfig, transaction: TransactionParams) {
    config.HasGasModelV2() ==> transaction.envelopeBytes != 0
  }

  /** The saturating settlement computes the formulas above, for all charges whose rows and result
      bytes fit 64 bits; work and fees of any size saturate without changing the answer. */
  lemma SettleIsPriced(c: Charges, config: GasConfig, transaction: TransactionParams)
    requires NoWrap(c)
    ensures Settle(Narrow(c), config, transaction) == if Settles(config, transaction) then Some(Priced(c, config, transaction)) else None
  {
    hide Sat, MulShift, Product;
    NarrowRows(c, c.rows);
    Multiplied(c.rows, config.dataEscrowPerRow);
    if config.HasGasModelV2() {
      UnitsOf(c.work, transaction.envelopeBytes, Net(c), c.result);
      SatAddSat(MulShift(Sat(GasUnits(c, transaction.envelopeBytes)), config.feeMultiplier, config.feeShift), c.policy);
    } else {
      DataOf(transaction.payloadBytes, c.result, Net(c));
      SatProduct(Sat(BlockData(c, transaction.payloadBytes)), BlockData(c, transaction.payloadBytes), config.gasFeePerByte);
      AllowanceOf(BlockData(c, transaction.payloadBytes), config.gasFeePerByte);
      SatAddSat(ScaledWork(c, config), Product(BlockData(c, transaction.payloadBytes), config.gasFeePerByte));
      OfferOf(config.minimumGasOffer, ScaledWork(c, config),
              Product(if BlockData(c, transaction.payloadBytes) > 1024 then BlockData(c, transaction.payloadBytes) else 1024, config.gasFeePerByte));
    }
  }

  lemma UnitsOf(work: nat, envelope: U64, net: U64, result: U64)
    ensures SaturatingAdd(Sat(work), SaturatingMul(SaturatingAdd(SaturatingAdd(envelope, net), result), 25))
         == Sat(work + 25 * ((envelope as nat) + net + result))
  {
  }

  lemma DataOf(payload: U64, result: U64, net: U64)
    ensures SaturatingAdd(SaturatingAdd(payload, result), net) == Sat((payload as nat) + result + net)
  {
  }

  lemma AllowanceOf(data: nat, price: U64)
    ensures SaturatingMul(if Sat(data) > 1024 then Sat(data) else 1024, price) == Sat(Product(if data > 1024 then data else 1024, price))
  {
    var allowed: nat := if data > 1024 then data else 1024;
    SatProduct(if Sat(data) > 1024 then Sat(data) else 1024, allowed, price);
  }

  lemma OfferOf(minimum: U64, work: U64, bytes: nat)
    ensures SaturatingAdd(SaturatingAdd(SaturatingMul(minimum, 2), work), Sat(bytes)) == Sat((minimum as nat) * 2 + work + bytes)
  {
  }

  // ---- batches ------------------------------------------------------------------------------

  method EstimateNativeFeeBatch(parts: seq<NativeFeePart>, config: GasConfig, transaction: TransactionParams)
    returns (ok: bool, estimate: NativeFeeEstimate)
    requires AllFit(parts)
    ensures ok <==> AllAccepted(parts, config) && Settles(config, transaction)
    ensures ok ==> Settle(Narrow(BatchCharges(parts, config)), config, transaction) == Some(estimate)
    ensures !ok ==> estimate == NO_ESTIMATE
  {
    hide Narrow, AddOperation, PartCharges, Accepted, NativeFeeParams.SizesFit;
    var totals := NO_MODEL;
    NarrowNothing();
    var i: nat := 0;
    while i != |parts|
      invariant i <= |parts| && AllAccepted(parts[..i], config)
      invariant totals == Narrow(BatchCharges(parts[..i], config))
    {
      var accepted, part := PartModel(parts[i], config);
      if !accepted {
        return false, NO_ESTIMATE;
      }
      totals := AddOperation(totals, part);
      AddNarrow(BatchCharges(parts[..i], config), PartCharges(parts[i], config));
      assert parts[..i + 1][..i] == parts[..i];
      i := i + 1;
    }
    assert parts[..i] == parts;
    var result := Settle(totals, config, transaction);
    if result.None? {
      return false, NO_ESTIMATE;
    }
    ok, estimate := true, result.value;
  }

  method EstimateNativeFee(kind: NativeFeeKind, config: GasConfig, params: NativeFeeParams, transaction: TransactionParams)
    returns (ok: bool, estimate: NativeFeeEstimate)
    requires params.SizesFit()
    ensures ok <==> Accepted(NativeFeePart(kind, params), config) && Settles(config, transaction)
    ensures ok ==> Settle(Narrow(PartCharges(NativeFeePart(kind, params), config)), config, transaction) == Some(estimate)
    ensures !ok ==> estimate == NO_ESTIMATE
  {
    hide PartCharges, Accepted;
    var part := NativeFeePart(kind, params);
    OnePart(part, config);
    ok, estimate := EstimateNativeFeeBatch([part], config, transaction);
  }

  lemma OnePart(part: NativeFeePart, config: GasConfig)
    requires part.params.SizesFit()
    ensures BatchCharges([part], config) == PartCharges(part, config)
    ensures AllAccepted([part], config) <==> Accepted(part, config)
  {
    hide PartCharges, Accepted;
    assert [part][..0] == [];
    assert AllAccepted([part], config) ==> Accepted([part][0], config);
  }

  // ---- the order of the operations does not matter ------------------------------------------

  lemma {:induction false} BatchWithout(parts: seq<NativeFeePart>, i: nat, config: GasConfig)
    requires AllFit(parts) && i < |parts|
    ensures AllFit(parts[..i] + parts[i + 1..])
    ensures BatchCharges(parts, config) == Plus(BatchCharges(parts[..i] + parts[i + 1..], config), PartCharges(parts[i], config))
  {
    hide PartCharges, NativeFeeParams.SizesFit;
    var n := |parts| - 1;
    if i == n {
      assert parts[..i] + parts[i + 1..] == parts[..n];
    } else {
      BatchWithout(parts[..n], i, config);
      var rest := parts[..i] + parts[i + 1..];
      assert rest[..|rest| - 1] == parts[..n][..i] + parts[..n][i + 1..];
      assert rest[|rest| - 1] == parts[n];
    }
  }

  /** The charges of a batch are those of the bag of its parts. */
  lemma {:induction false} BatchOrder(parts: seq<NativeFeePart>, other: seq<NativeFeePart>, config: GasConfig)
    requires AllFit(parts) && AllFit(other) && multiset(parts) == multiset(other)
    ensures BatchCharges(parts, config) == BatchCharges(other, config)
    decreases |parts|
  {
    hide PartCharges, NativeFeeParams.SizesFit;
    assert |multiset(parts)| == |parts| && |multiset(other)| == |other|;
    if parts != [] {
      var n := |parts| - 1;
      assert parts[n] in multiset(other);
      var i :| 0 <= i < |other| && other[i] == parts[n];
      BatchWithout(other, i, config);
      WithoutOne(other, i);
      WithoutOne(parts, n);
      assert parts[..n] + parts[n + 1..] == parts[..n];
      BatchOrder(parts[..n], other[..i] + other[i + 1..], config);
    }
  }

  lemma WithoutOne<T>(s: seq<T>, i: nat)
    requires i < |s|
    ensures multiset(s[..i] + s[i + 1..]) == multiset(s) - multiset{s[i]}
  {
    assert s == s[..i] + [s[i]] + s[i + 1..];
  }
}
