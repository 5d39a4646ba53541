/** What a plan answers, said without the planner's own parts: the witnesses it demands by type, the size of
    the envelope, the two quotes that decide the exact flag, and one message planned in numbers. */
module FeePlanLaws {
  import opened Wrappers
  import opened Words64
  import opened Codecs
  import opened WireFormat
  import M = Messages
  import opened Envelope
  import opened Layouts
  import opened GasConfigs
  import opened FeeModel
  import opened FeeEstimator
  import opened FeeSettlement
  import opened FeeExactness
  import opened TokenMetadata
  import opened FeePlan
  import opened FeePlanning
  import opened FeePrices
  import opened FeeQuotes
  import FeeCalls

  /** The witnesses a caller states: some, where the type leaves their number open; none, or as many as the type
      carries, elsewhere. */
  predicate Stated(body: M.TxBody, n: U32) {
    match body
    case Call(_) => n >= 1
    case CallMulti(_) => n >= 1
    case Trade(_) => n >= 1
    case Phantasma(_) => n >= 1
    case TransferFungible(_) => n <= 1
    case TransferNonFungibleSingle(_) => n <= 1
    case TransferNonFungibleMulti(_) => n <= 1
    case MintFungible(_) => n <= 1
    case BurnFungible(_) => n <= 1
    case MintNonFungible(_) => n <= 1
    case BurnNonFungible(_) => n <= 1
    case TransferFungibleGasPayer(_) => n == 0 || n == 2
    case TransferNonFungibleSingleGasPayer(_) => n == 0 || n == 2
    case TransferNonFungibleMultiGasPayer(_) => n == 0 || n == 2
    case BurnFungibleGasPayer(_) => n == 0 || n == 2
    case BurnNonFungibleGasPayer(_) => n == 0 || n == 2
    case PhantasmaRaw(_) => n == 0
  }

  lemma StatedExactly(body: M.TxBody, o: FeePlanOptions)
    ensures WitnessesStated(body, o) <==> Stated(body, o.witnessCount)
  {
  }

  /** The bytes of the envelope, on 32 bits. */
  function SignedBytes(msg: M.TxMsg, n: U32): U32 {
    (|SerializeTx(msg)| + WitnessBytesAdded(msg.body, n)) % 0x1_0000_0000
  }

  lemma SizeIs(msg: M.TxMsg, n: U32)
    ensures EnvelopeBytes(msg, n) == SignedBytes(msg, n)
  {
    hide SerializeTx;
  }

  /** What the described operations settle at: nothing where one of them has no price. */
  function QuoteAt(parts: seq<NativeFeePart>, config: GasConfig, bytes: U32): Option<NativeFeeEstimate>
    requires AllFit(parts)
  {
    if exists i :: 0 <= i < |parts| && !Accepted(parts[i], config) then None
    else Settle(Narrow(BatchCharges(parts, config)), config, TransactionParams(bytes, 0))
  }

  lemma QuoteAtIs(parts: seq<NativeFeePart>, config: GasConfig, bytes: U32)
    requires AllFit(parts)
    ensures QuoteAt(parts, config, bytes) == Quote(parts, config, TransactionParams(bytes, 0))
  {
    hide Settle, Narrow, BatchCharges, Accepted, AllFit;
  }

  /** Every fact at its cheaper reading: the recipient holds the token, supplies are small, the token was burned
      before, its supply row exists, no series is duplicated, and neither ROM nor series carries a meta id. */
  function Cheapened(o: FeePlanOptions): FeePlanOptions {
    o.(facts := StateFacts(true, false, true, true, false, false, false))
  }

  lemma MessageQuoteIs(msg: M.TxMsg, config: GasConfig, o: FeePlanOptions, meta: MetaReader)
    ensures MessageParts(msg.body, o, meta).Some? ==> AllFit(MessageParts(msg.body, o, meta).value)
    ensures MessageQuote(msg, config, o, meta) ==
      if MessageParts(msg.body, o, meta).None? then None
      else QuoteAt(MessageParts(msg.body, o, meta).value, config, SignedBytes(msg, o.witnessCount))
  {
    hide MessageParts, QuoteAt, Quote, AllFit, SerializeTx, EnvelopeBytes, WitnessBytesAdded;
    SizeIs(msg, o.witnessCount);
    if MessageParts(msg.body, o, meta).Some? {
      PartsFit(msg.body, o, meta);
      QuoteAtIs(MessageParts(msg.body, o, meta).value, config, SignedBytes(msg, o.witnessCount));
    }
  }

  /** When a message is planned, and what the plan says: its operations settled at the size of its envelope, their
      kinds, and exact unless a script is among them or the cheaper facts change bill, offer or ceiling. */
  lemma PlannedAs(msg: M.TxMsg, config: GasConfig, o: FeePlanOptions, meta: MetaReader)
    ensures MessageParts(msg.body, o, meta).Some? ==> AllFit(MessageParts(msg.body, o, meta).value)
    ensures PlanOf(msg, config, o, meta).Some? <==>
      Stated(msg.body, o.witnessCount) && MessageParts(msg.body, o, meta).Some?
      && QuoteAt(MessageParts(msg.body, o, meta).value, config, SignedBytes(msg, o.witnessCount)).Some?
    ensures PlanOf(msg, config, o, meta).Some? ==>
      var plan, parts := PlanOf(msg, config, o, meta).value, MessageParts(msg.body, o, meta).value;
      && Some(plan.estimate) == QuoteAt(parts, config, SignedBytes(msg, o.witnessCount))
      && plan.envelopeBytes == SignedBytes(msg, o.witnessCount)
      && |plan.kinds| == |parts| && (forall i :: 0 <= i < |parts| ==> plan.kinds[i] == parts[i].kind)
  {
    hide MessageParts, QuoteAt, AllFit, SerializeTx, EnvelopeBytes, WitnessBytesAdded, WitnessesStated, Stated, MessageQuote, Mattered, Budgeted;
    StatedExactly(msg.body, o);
    MessageQuoteIs(msg, config, o, meta);
    SizeIs(msg, o.witnessCount);
  }

  lemma ExactAs(msg: M.TxMsg, config: GasConfig, o: FeePlanOptions, meta: MetaReader)
    requires PlanOf(msg, config, o, meta).Some?
    ensures MessageParts(msg.body, Cheapened(o), meta).Some? && AllFit(MessageParts(msg.body, Cheapened(o), meta).value)
    ensures
      var plan := PlanOf(msg, config, o, meta).value;
      var other := QuoteAt(MessageParts(msg.body, Cheapened(o), meta).value, config, SignedBytes(msg, o.witnessCount));
      plan.exact <==>
        && (forall i :: 0 <= i < |plan.kinds| ==> plan.kinds[i] != Script)
        && other.Some? && other.value.expectedGasBill == plan.estimate.expectedGasBill
        && other.value.maxGas == plan.estimate.maxGas && other.value.maxData == plan.estimate.maxData
  {
    hide MessageParts, QuoteAt, AllFit, AllCheaper, SerializeTx, EnvelopeBytes, WitnessBytesAdded, WitnessesStated, MessageQuote, FactsBelow, Budgeted, KindsOf;
    MessageQuoteIs(msg, config, o, meta);
    MessageQuoteIs(msg, config, Cheapened(o), meta);
    CheapestBelow(o.facts);
    PartsCheaper(msg.body, o, CHEAPEST, meta);
    assert With(o, CHEAPEST) == Cheapened(o);
    var ps, qs := MessageParts(msg.body, Cheapened(o), meta).value, MessageParts(msg.body, o, meta).value;
    StillQuoted(ps, qs, config, SignedBytes(msg, o.witnessCount));
    BudgetedKinds(qs);
  }

  lemma BudgetedKinds(parts: seq<NativeFeePart>)
    ensures Budgeted(parts) <==> exists i :: 0 <= i < |KindsOf(parts)| && KindsOf(parts)[i] == Script
  {
    if i :| 0 <= i < |parts| && parts[i].kind == Script {
      assert KindsOf(parts)[i] == Script;
    }
  }

  lemma CheapestBelow(f: StateFacts)
    ensures FactsBelow(CHEAPEST, f) && CHEAPEST == StateFacts(true, false, true, true, false, false, false)
  {
    CheapestIsBelow(f);
  }

  lemma StillQuoted(ps: seq<NativeFeePart>, qs: seq<NativeFeePart>, config: GasConfig, bytes: U32)
    requires AllFit(ps) && AllFit(qs) && AllCheaper(ps, qs) && QuoteAt(qs, config, bytes).Some?
    ensures QuoteAt(ps, config, bytes).Some?
  {
    hide Accepted, Cheaper, Settle, Narrow, BatchCharges, NativeFeeParams.SizesFit;
    forall i | 0 <= i < |ps| ensures Accepted(ps[i], config) {
      PartMonotone(ps[i], qs[i], config);
    }
    SettlesWhen(BatchCharges(ps, config), config, TransactionParams(bytes, 0));
    SettlesWhen(BatchCharges(qs, config), config, TransactionParams(bytes, 0));
  }

  // ---- a message planned --------------------------------------------------------------------

  /** The defaults of the planner: every fact at its costlier reading, no infusions read, a script's budget, and
      no witnesses stated. */
  function Defaults(): FeePlanOptions {
    FeePlanOptions(StateFacts(false, true, false, false, true, true, true), false, [], 5000, 512, 4, 0)
  }

  function TransferOf(tokenId: U64): M.TxMsg {
    VectorMessage().(body := M.TransferFungible(M.TransferFt(Nobody(), tokenId, 100000000)))
  }

  /** The transfer of the repository's vectors, under the prices of the activation package: 182 bytes of envelope
      and no row for the data token, whose plan is exact; and for a token whose balance row may be new, a bill of 10
      units more, a row of escrow, and a plan that is an upper bound. */
  lemma VectorPlanned(meta: MetaReader)
    ensures PlanOf(TransferOf(1), PACKAGE, Defaults(), meta) ==
      Some(FeePlan(NativeFeeEstimate(45600000, 0, 45600000, 0, 0), [TransferFungible], true, 182))
    ensures PlanOf(TransferOf(9), PACKAGE, Defaults(), meta) ==
      Some(FeePlan(NativeFeeEstimate(45850000, 200000, 45850000, 1, 0), [TransferFungible], false, 182))
  {
    hide PlanOf, QuoteAt, MessageParts, AllFit, SignedBytes, NativeFeeParams.SizesFit;
    TransferPlanned(1, meta);
    TransferPlanned(9, meta);
  }

  lemma TransferPlanned(id: U64, meta: MetaReader)
    requires id == 1 || id == 9
    ensures PlanOf(TransferOf(id), PACKAGE, Defaults(), meta) == Some(FeePlan(PackageQuote(id == 1), [TransferFungible], id == 1, 182))
  {
    hide PlanOf, QuoteAt, MessageParts, AllFit, SignedBytes, NativeFeeParams.SizesFit, IsNftAddress, FeeCalls.Moved, VectorMessage, Nobody;
    var msg, o := TransferOf(id), Defaults();
    TransferParts(id, meta);
    SizeOfTransfer(id);
    PlannedAs(msg, PACKAGE, o, meta);
    TransferQuoted(FeeCalls.StatedFacts(o), id);
    TransferQuoted(FeeCalls.StatedFacts(Cheapened(o)), id);
    ExactAs(msg, PACKAGE, o, meta);
    var plan := PlanOf(msg, PACKAGE, o, meta).value;
    assert plan.kinds == [TransferFungible];
  }

  function PackageQuote(free: bool): NativeFeeEstimate {
    if free then NativeFeeEstimate(45600000, 0, 45600000, 0, 0) else NativeFeeEstimate(45850000, 200000, 45850000, 1, 0)
  }

  function PartOf(facts: StateFacts, id: U64): NativeFeePart {
    NativeFeePart(TransferFungible, FeeCalls.Moved(facts, id, 1, false))
  }

  lemma TransferParts(id: U64, meta: MetaReader)
    ensures MessageParts(TransferOf(id).body, Defaults(), meta) == Some([PartOf(FeeCalls.StatedFacts(Defaults()), id)])
    ensures MessageParts(TransferOf(id).body, Cheapened(Defaults()), meta) == Some([PartOf(FeeCalls.StatedFacts(Cheapened(Defaults())), id)])
  {
    hide MessageParts;
    var t := M.TransferFt(Nobody(), id, 100000000);
    FeeCalls.TransferDescribed(Defaults(), meta, t, M.TransferFtGasPayer(Nobody(), Nobody(), id, 100000000));
    FeeCalls.TransferDescribed(Cheapened(Defaults()), meta, t, M.TransferFtGasPayer(Nobody(), Nobody(), id, 100000000));
  }

  lemma SizeOfTransfer(id: U64)
    ensures SignedBytes(TransferOf(id), 0) == 182
  {
    hide LittleEndian, SerializeTx;
    MessageLayout(TransferOf(id));
  }

  lemma TransferQuoted(facts: StateFacts, id: U64)
    requires id == 1 || id == 9
    ensures AllFit([PartOf(facts, id)])
    ensures QuoteAt([PartOf(facts, id)], PACKAGE, 182) == Some(PackageQuote(facts.recipientHoldsToken || id == 1))
  {
    hide Settle, Narrow, PartCharges, Accepted, BatchCharges;
    var p := PartOf(facts, id);
    TransferPrice(p.params, PACKAGE);
    BatchAdds([], p, PACKAGE);
    assert [] + [p] == [p];
    RefusedExactly(TransferFungible, p.params, PACKAGE);
    SmallV2(Charges(10, 0, 0, if facts.recipientHoldsToken || id == 1 then 0 else 1, 0), PACKAGE, 182);
  }

  method PlanVector() returns (exact: Option<FeePlan>, bound: Option<FeePlan>)
    ensures exact == Some(FeePlan(NativeFeeEstimate(45600000, 0, 45600000, 0, 0), [TransferFungible], true, 182))
    ensures bound == Some(FeePlan(NativeFeeEstimate(45850000, 200000, 45850000, 1, 0), [TransferFungible], false, 182))
  {
    hide PlanOf, Defaults, TransferOf;
    VectorPlanned(TokenMeta);
    exact := PlanFees(TransferOf(1), PACKAGE, Defaults());
    bound := PlanFees(TransferOf(9), PACKAGE, Defaults());
  }
}
