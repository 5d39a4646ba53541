/** PlanFees and what its answer means: when it is a prediction, that it is never below the settlement,
    and that a batch costs the same in any order. */
module FeePlanning {
  import opened Wrappers
  import opened Words64
  import opened Codecs
  import opened WireFormat
  import opened IntX
  import M = Messages
  import opened MessageCodecs
  import opened BodyCodecs
  import opened CallCodec
  import opened Envelope
  import opened TokenCalls
  import opened GasConfigs
  import opened FeeModel
  import opened FeeEstimator
  import opened FeeSettlement
  import opened FeeExactness
  import opened TokenMetadata
  import opened FeePlan

  // ---- every description fits its own sizes -------------------------------------------------

  lemma MintPartFits(o: FeePlanOptions, args: seq<Byte>)
    requires PhantasmaMintFacts(args).Some?
    ensures MintPart(o, PhantasmaMintFacts(args).value).params.SizesFit()
    ensures MintPart(o, PhantasmaMintFacts(args).value).params.count >= 1 ==>
      1 <= MintPart(o, PhantasmaMintFacts(args).value).params.distinctSeriesCount <= MintPart(o, PhantasmaMintFacts(args).value).params.count
  {
    hide EntryCodec, DecAll, RomSizes, RamSizes, SeriesOf, Lawful, Faithful, Product;
    var count := ToU32(args[40..44]);
    EntryLawful();
    LawfulIsFaithful(EntryCodec());
    AllBounded(EntryCodec(), count, args[44..]);
    SeriesCount(DecAll(EntryCodec(), count, args[44..]).value.0);
  }

  lemma CallPartFits(call: M.TxMsgCall, o: FeePlanOptions, take: bool, meta: MetaReader)
    requires CallPart(call, o, take, meta).Some?
    ensures CallPart(call, o, take, meta).value.params.SizesFit()
  {
    hide TransferFungibleArgs, TransferNonFungibleArgs, MintFungibleArgs, BurnFungibleArgs, BurnNonFungibleArgs, PhantasmaMintFacts,
         IsNftAddress, TokenInfoCodec, MintPart;
    if call.sections == [] && call.moduleId == 1 && call.methodId == 27 {
      MintPartFits(o, call.args);
    }
  }

  lemma {:induction false} CallsPartsFit(calls: seq<M.TxMsgCall>, o: FeePlanOptions, meta: MetaReader)
    requires CallsParts(calls, o, meta).Some?
    ensures AllFit(CallsParts(calls, o, meta).value)
  {
    hide CallPart, NativeFeeParams.SizesFit;
    if calls != [] {
      var n := |calls| - 1;
      CallsPartsFit(calls[..n], o, meta);
      CallPartFits(calls[n], o, !HasBurn(CallsParts(calls[..n], o, meta).value), meta);
    }
  }

  lemma PartsFit(body: M.TxBody, o: FeePlanOptions, meta: MetaReader)
    requires MessageParts(body, o, meta).Some?
    ensures AllFit(MessageParts(body, o, meta).value)
  {
    hide CallPart, CallsParts, IsNftAddress;
    match body
    case Call(c) => CallPartFits(c, o, true, meta);
    case CallMulti(cs) => CallsPartsFit(cs, o, meta);
    case _ =>
  }

  // ---- planning -----------------------------------------------------------------------------

  /** The witness count a plan needs: stated for the types whose witnesses the caller chooses, and not
      in conflict with the message for the others. */
  predicate WitnessesStated(body: M.TxBody, o: FeePlanOptions) {
    match RequiredWitnessCount(body)
    case None => o.witnessCount != 0
    case Some(n) => o.witnessCount == 0 || o.witnessCount == n
  }

  /** The quote of a message with the facts of the options. */
  function MessageQuote(msg: M.TxMsg, config: GasConfig, o: FeePlanOptions, meta: MetaReader): Option<NativeFeeEstimate> {
    match MessageParts(msg.body, o, meta)
    case None => None
    case Some(parts) =>
      PartsFit(msg.body, o, meta);
      Quote(parts, config, TransactionParams(EnvelopeBytes(msg, o.witnessCount), 0))
  }

  /** The second probe: did a fact at its costlier reading change the quote? */
  function Mattered(msg: M.TxMsg, config: GasConfig, o: FeePlanOptions, meta: MetaReader, quoted: NativeFeeEstimate): bool {
    match MessageQuote(msg, config, o.(facts := CHEAPEST), meta)
    case None => MessageParts(msg.body, o.(facts := CHEAPEST), meta).None? || !SameQuote(NO_ESTIMATE, quoted)
    case Some(cheaper) => !SameQuote(cheaper, quoted)
  }

  function KindsOf(parts: seq<NativeFeePart>): (k: seq<NativeFeeKind>)
    ensures |k| == |parts|
  {
    seq(|parts|, i requires 0 <= i < |parts| => parts[i].kind)
  }

  predicate Budgeted(parts: seq<NativeFeePart>) {
    exists i :: 0 <= i < |parts| && parts[i].kind == Script
  }

  function PlanOf(msg: M.TxMsg, config: GasConfig, o: FeePlanOptions, meta: MetaReader): Option<FeePlan> {
    if !WitnessesStated(msg.body, o) || MessageQuote(msg, config, o, meta).None? then None
    else
      var parts := MessageParts(msg.body, o, meta).value;
      var estimate := MessageQuote(msg, config, o, meta).value;
      Some(FeePlan(estimate, KindsOf(parts), !Budgeted(parts) && !Mattered(msg, config, o, meta, estimate),
                   EnvelopeBytes(msg, o.witnessCount)))
  }

  method AssumptionsMattered(msg: M.TxMsg, config: GasConfig, o: FeePlanOptions, envelopeBytes: U32, quoted: NativeFeeEstimate)
    returns (mattered: bool)
    requires envelopeBytes == EnvelopeBytes(msg, o.witnessCount)
    ensures mattered == Mattered(msg, config, o, TokenMeta, quoted)
  {
    hide TokenMeta, MessageParts, EnvelopeBytes, Settle, Narrow, BatchCharges, AllAccepted, AllFit, Accepted;
    var cheapest := o.(facts := CHEAPEST);
    var described := Describe(msg, cheapest);
    if described.None? {
      return true;
    }
    PartsFit(msg.body, cheapest, TokenMeta);
    var ok, cheaper := EstimateNativeFeeBatch(described.value, config, TransactionParams(envelopeBytes, 0));
    SettlesWhen(BatchCharges(described.value, config), config, TransactionParams(envelopeBytes, 0));
    mattered := cheaper.expectedGasBill != quoted.expectedGasBill || cheaper.maxGas != quoted.maxGas || cheaper.maxData != quoted.maxData;
  }

  lemma SettlesWhen(c: Charges, config: GasConfig, transaction: TransactionParams)
    ensures Settle(Narrow(c), config, transaction).Some? <==> Settles(config, transaction)
  {
    hide Narrow;
  }

  method PlanFees(msg: M.TxMsg, config: GasConfig, o: FeePlanOptions) returns (out: Option<FeePlan>)
    ensures out == PlanOf(msg, config, o, TokenMeta)
  {
    hide TokenMeta, MessageParts, EnvelopeBytes, Settle, Narrow, BatchCharges, AllAccepted, AllFit, Accepted, Mattered, RequiredWitnessCount;
    var required := RequiredWitnessCount(msg.body);
    if required.None? && o.witnessCount == 0 {
      return None;
    }
    if required.Some? && o.witnessCount != 0 && o.witnessCount != required.value {
      return None;
    }
    var described := Describe(msg, o);
    if described.None? {
      return None;
    }
    PartsFit(msg.body, o, TokenMeta);
    var parts := described.value;
    var envelopeBytes := EnvelopeBytes(msg, o.witnessCount);
    var priced, estimate := EstimateNativeFeeBatch(parts, config, TransactionParams(envelopeBytes, 0));
    SettlesWhen(BatchCharges(parts, config), config, TransactionParams(envelopeBytes, 0));
    if !priced {
      return None;
    }
    var kinds, budgeted := CollectKinds(parts);
    var exact := false;
    if !budgeted {
      var mattered := AssumptionsMattered(msg, config, o, envelopeBytes, estimate);
      exact := !mattered;
    }
    out := Some(FeePlan(estimate, kinds, exact, envelopeBytes));
  }

  method CollectKinds(parts: seq<NativeFeePart>) returns (kinds: seq<NativeFeeKind>, budgeted: bool)
    ensures kinds == KindsOf(parts) && (budgeted <==> Budgeted(parts))
  {
    kinds, budgeted := [], false;
    var i: nat := 0;
    while i != |parts|
      invariant i <= |parts| && |kinds| == i && forall k :: 0 <= k < i ==> kinds[k] == parts[k].kind
      invariant budgeted <==> exists k :: 0 <= k < i && parts[k].kind == Script
    {
      kinds := kinds + [parts[i].kind];
      budgeted := budgeted || parts[i].kind == Script;
      i := i + 1;
    }
  }

  // ---- facts only ever make a description costlier ------------------------------------------

  /** The same options with other facts. */
  function With(o: FeePlanOptions, f: StateFacts): FeePlanOptions {
    o.(facts := f)
  }

  lemma CallCheaper(call: M.TxMsgCall, o: FeePlanOptions, f: StateFacts, take: bool, meta: MetaReader)
    requires FactsBelow(f, o.facts)
    ensures CallPart(call, With(o, f), take, meta).Some? <==> CallPart(call, o, take, meta).Some?
    ensures CallPart(call, o, take, meta).Some? ==>
      Cheaper(CallPart(call, With(o, f), take, meta).value, CallPart(call, o, take, meta).value)
  {
    hide TransferFungibleArgs, TransferNonFungibleArgs, MintFungibleArgs, BurnFungibleArgs, BurnNonFungibleArgs, PhantasmaMintFacts,
         Transferred, Burned, BurnPart, MintPart, CreationPart, SeriesPart, NamePart, ScriptPart, Cheaper, FactsBelow;
    ScriptCheaper(o, f);
    if call.sections == [] && call.moduleId == 1 {
      ModuleCallCheaper(call, o, f, take, meta);
    } else if call.sections == [] && NamePart(call.args).Some? {
      CheaperSelf(NamePart(call.args).value);
    }
  }

  lemma ModuleCallCheaper(call: M.TxMsgCall, o: FeePlanOptions, f: StateFacts, take: bool, meta: MetaReader)
    requires FactsBelow(f, o.facts) && call.sections == [] && call.moduleId == 1
    ensures CallPart(call, With(o, f), take, meta).Some? <==> CallPart(call, o, take, meta).Some?
    ensures CallPart(call, o, take, meta).Some? ==>
      Cheaper(CallPart(call, With(o, f), take, meta).value, CallPart(call, o, take, meta).value)
  {
    hide TransferFungibleArgs, TransferNonFungibleArgs, MintFungibleArgs, BurnFungibleArgs, BurnNonFungibleArgs, PhantasmaMintFacts,
         Transferred, Burned, BurnPart, MintPart, CreationPart, SeriesPart, NamePart, ScriptPart, Cheaper, FactsBelow;
    ScriptCheaper(o, f);
    match call.methodId
    case 0 =>
      if TransferFungibleArgs(call.args).Some? {
        var (to, id) := TransferFungibleArgs(call.args).value;
        TransferredCheaper(o, f, TransferFungible, id, 1, to);
      }
    case 1 =>
      if TransferNonFungibleArgs(call.args).Some? {
        var (to, id, n) := TransferNonFungibleArgs(call.args).value;
        TransferredCheaper(o, f, TransferNonFungible, id, n, to);
      }
    case 2 =>
      if CreationPart(call.args, meta).Some? {
        CheaperSelf(CreationPart(call.args, meta).value);
      }
    case 3 =>
      if MintFungibleArgs(call.args).Some? {
        var (to, id) := MintFungibleArgs(call.args).value;
        TransferredCheaper(o, f, MintFungible, id, 1, to);
      }
    case 4 =>
      if BurnFungibleArgs(call.args).Some? {
        BurnedCheaper(o, f, BurnFungibleArgs(call.args).value);
      }
    case 6 => SeriesCheaper(o, f, call.args);
    case 9 =>
      if BurnNonFungibleArgs(call.args).Some? {
        var (id, ids) := BurnNonFungibleArgs(call.args).value;
        BurnCheaper(o, f, id, AsCount(|ids|), take);
      }
    case 27 =>
      if PhantasmaMintFacts(call.args).Some? {
        MintCheaper(o, f, PhantasmaMintFacts(call.args).value);
      }
    case _ =>
  }

  lemma TransferredCheaper(o: FeePlanOptions, f: StateFacts, kind: NativeFeeKind, tokenId: U64, count: U32, to: Bytes32)
    requires FactsBelow(f, o.facts)
    ensures Cheaper(Transferred(With(o, f), kind, tokenId, count, to), Transferred(o, kind, tokenId, count, to))
  {
    hide IsNftAddress;
  }

  lemma BurnedCheaper(o: FeePlanOptions, f: StateFacts, tokenId: U64)
    requires FactsBelow(f, o.facts)
    ensures Cheaper(Burned(With(o, f), tokenId), Burned(o, tokenId))
  {
  }

  lemma MintedCheaper(o: FeePlanOptions, f: StateFacts, t: M.MintNft)
    requires FactsBelow(f, o.facts)
    ensures Cheaper(Minted(With(o, f), t), Minted(o, t))
  {
    hide IsNftAddress;
  }

  lemma BurnCheaper(o: FeePlanOptions, f: StateFacts, tokenId: U64, count: U32, take: bool)
    requires FactsBelow(f, o.facts)
    ensures BurnPart(With(o, f), tokenId, count, take).Some? <==> BurnPart(o, tokenId, count, take).Some?
    ensures BurnPart(o, tokenId, count, take).Some? ==>
      Cheaper(BurnPart(With(o, f), tokenId, count, take).value, BurnPart(o, tokenId, count, take).value)
  {
  }

  lemma MintCheaper(o: FeePlanOptions, f: StateFacts, m: MintFacts)
    requires FactsBelow(f, o.facts)
    ensures Cheaper(MintPart(With(o, f), m), MintPart(o, m))
  {
    hide IsNftAddress;
  }

  lemma SeriesCheaper(o: FeePlanOptions, f: StateFacts, args: seq<Byte>)
    requires FactsBelow(f, o.facts)
    ensures Cheaper(SeriesPart(With(o, f), args), SeriesPart(o, args))
  {
  }

  lemma ScriptCheaper(o: FeePlanOptions, f: StateFacts)
    ensures Cheaper(ScriptPart(With(o, f)), ScriptPart(o))
  {
  }

  lemma {:induction false} CallsCheaper(calls: seq<M.TxMsgCall>, o: FeePlanOptions, f: StateFacts, meta: MetaReader)
    requires FactsBelow(f, o.facts)
    ensures CallsParts(calls, With(o, f), meta).Some? <==> CallsParts(calls, o, meta).Some?
    ensures CallsParts(calls, o, meta).Some? ==> AllCheaper(CallsParts(calls, With(o, f), meta).value, CallsParts(calls, o, meta).value)
  {
    hide CallPart, FactsBelow, With;
    if calls != [] {
      var n := |calls| - 1;
      CallsCheaper(calls[..n], o, f, meta);
      if CallsParts(calls[..n], o, meta).Some? {
        SameBurns(CallsParts(calls[..n], With(o, f), meta).value, CallsParts(calls[..n], o, meta).value);
        CallCheaper(calls[n], o, f, !HasBurn(CallsParts(calls[..n], o, meta).value), meta);
      }
    }
  }

  lemma SameBurns(ps: seq<NativeFeePart>, qs: seq<NativeFeePart>)
    requires AllCheaper(ps, qs)
    ensures HasBurn(ps) <==> HasBurn(qs)
  {
    assert forall i :: 0 <= i < |ps| ==> ps[i].kind == qs[i].kind;
  }

  lemma PartsCheaper(body: M.TxBody, o: FeePlanOptions, f: StateFacts, meta: MetaReader)
    requires FactsBelow(f, o.facts)
    ensures MessageParts(body, With(o, f), meta).Some? <==> MessageParts(body, o, meta).Some?
    ensures MessageParts(body, o, meta).Some? ==> AllCheaper(MessageParts(body, With(o, f), meta).value, MessageParts(body, o, meta).value)
  {
    hide CallPart, CallsParts, Transferred, Burned, Minted, BurnPart, ScriptPart, Cheaper, FactsBelow;
    match body
    case Call(c) => CallCheaper(c, o, f, true, meta);
    case CallMulti(cs) => CallsCheaper(cs, o, f, meta);
    case TransferFungible(t) => TransferredCheaper(o, f, TransferFungible, t.tokenId, 1, t.to);
    case TransferFungibleGasPayer(t) => TransferredCheaper(o, f, TransferFungible, t.tokenId, 1, t.to);
    case TransferNonFungibleSingle(t) => TransferredCheaper(o, f, TransferNonFungible, t.tokenId, 1, t.to);
    case TransferNonFungibleSingleGasPayer(t) => TransferredCheaper(o, f, TransferNonFungible, t.tokenId, 1, t.to);
    case TransferNonFungibleMulti(t) => TransferredCheaper(o, f, TransferNonFungible, t.tokenId, AsCount(|t.instanceIds|), t.to);
    case TransferNonFungibleMultiGasPayer(t) => TransferredCheaper(o, f, TransferNonFungible, t.tokenId, AsCount(|t.instanceIds|), t.to);
    case MintFungible(t) => TransferredCheaper(o, f, MintFungible, t.tokenId, 1, t.to);
    case BurnFungible(t) => BurnedCheaper(o, f, t.tokenId);
    case BurnFungibleGasPayer(t) => BurnedCheaper(o, f, t.tokenId);
    case MintNonFungible(t) => MintedCheaper(o, f, t);
    case BurnNonFungible(t) => BurnCheaper(o, f, t.tokenId, 1, true);
    case BurnNonFungibleGasPayer(t) => BurnCheaper(o, f, t.tokenId, 1, true);
    case Trade(_) | Phantasma(_) => ScriptCheaper(o, f);
    case PhantasmaRaw(_) =>
  }

  // ---- exact plans are predictions ----------------------------------------------------------

  /** What a caller can check before trusting the plan: its burns are covered and nothing wraps. */
  predicate Plannable(body: M.TxBody, config: GasConfig, o: FeePlanOptions, meta: MetaReader) {
    MessageParts(body, o, meta).Some? &&
    var parts := MessageParts(body, o, meta).value;
    PartsFit(body, o, meta);
    AllFit(ForgetAll(parts)) && Covered(parts, config) && NoWrap(BatchCharges(parts, config))
  }

  /** A plan is an upper bound: whatever cheaper or equal facts the chain holds, the same message then
      quotes a bill, an offer and a ceiling no higher than planned. */
  lemma PlanIsUpperBound(msg: M.TxMsg, config: GasConfig, o: FeePlanOptions, meta: MetaReader, f: StateFacts)
    requires Plannable(msg.body, config, o, meta) && FactsBelow(f, o.facts) && MessageQuote(msg, config, o, meta).Some?
    ensures MessageQuote(msg, config, With(o, f), meta).Some? && Plannable(msg.body, config, With(o, f), meta)
    ensures QuoteBelow(MessageQuote(msg, config, With(o, f), meta).value, MessageQuote(msg, config, o, meta).value)
  {
    hide MessageParts, EnvelopeBytes, Quote, BatchCharges, AllFit, AllCheaper, ForgetAll, Covered, NoWrap, FactsBelow;
    PartsFit(msg.body, o, meta);
    PartsCheaper(msg.body, o, f, meta);
    var ps, qs := MessageParts(msg.body, With(o, f), meta).value, MessageParts(msg.body, o, meta).value;
    PartsFit(msg.body, With(o, f), meta);
    QuoteMonotone(ps, qs, config, TransactionParams(EnvelopeBytes(msg, o.witnessCount), 0));
  }

  /** When a plan says it is exact, every assignment of the seven facts no costlier than the stated one
      gives the planned bill, offer and ceiling. */
  lemma ExactIsPrediction(msg: M.TxMsg, config: GasConfig, o: FeePlanOptions, meta: MetaReader, f: StateFacts)
    requires Plannable(msg.body, config, o, meta) && FactsBelow(f, o.facts)
    requires PlanOf(msg, config, o, meta).Some? && PlanOf(msg, config, o, meta).value.exact
    ensures MessageQuote(msg, config, With(o, f), meta).Some?
    ensures SameQuote(MessageQuote(msg, config, With(o, f), meta).value, PlanOf(msg, config, o, meta).value.estimate)
  {
    hide MessageParts, MessageQuote, Plannable, EnvelopeBytes;
    PlanIsUpperBound(msg, config, o, meta, f);
    CheapestIsBelow(f);
    PlanIsUpperBound(msg, config, With(o, f), meta, CHEAPEST);
    assert With(With(o, f), CHEAPEST) == o.(facts := CHEAPEST);
  }

  lemma CheapestIsBelow(f: StateFacts)
    ensures FactsBelow(CHEAPEST, f) && FactsBelow(f, COSTLIEST)
  {
  }

  predicate AssetsCountable(assets: seq<InfusedAsset>) {
    forall k :: 0 <= k < |assets| ==> FeeExactness.Countable(assets[k])
  }

  /** Every message that is not a batch is covered, unless it burns and a returned NFT token is said to
      hold 2^32 - 1 instances. */
  lemma SingleIsCovered(body: M.TxBody, config: GasConfig, o: FeePlanOptions, meta: MetaReader)
    requires !body.CallMulti? && MessageParts(body, o, meta).Some? && AssetsCountable(o.infusions)
    requires AllAccepted(MessageParts(body, o, meta).value, config)
    ensures AllFit(MessageParts(body, o, meta).value) && AllFit(ForgetAll(MessageParts(body, o, meta).value))
    ensures Covered(MessageParts(body, o, meta).value, config)
  {
    hide CallPart, PartCharges, Accepted, NativeFeeParams.SizesFit, Cheaper;
    PartsFit(body, o, meta);
    var parts := MessageParts(body, o, meta).value;
    AllCheaperSelf(parts);
    ForgetBatch(parts, parts, config);
    OneOperation(body, o, meta);
    if parts[0].kind == BurnNonFungible {
      BurnsAloneCovered(parts, config);
    } else {
      WithoutBurnsCovered(parts, config);
    }
  }

  lemma OneOperation(body: M.TxBody, o: FeePlanOptions, meta: MetaReader)
    requires !body.CallMulti? && MessageParts(body, o, meta).Some?
    ensures |MessageParts(body, o, meta).value| == 1
    ensures var p := MessageParts(body, o, meta).value[0]; p.params.infusions == [] || p.params.infusions == o.infusions
  {
    hide IsNftAddress;
    match body
    case Call(c) => CallInfusions(c, o, true, meta);
    case _ =>
  }

  lemma CallInfusions(call: M.TxMsgCall, o: FeePlanOptions, take: bool, meta: MetaReader)
    requires CallPart(call, o, take, meta).Some?
    ensures CallPart(call, o, take, meta).value.params.infusions == [] || CallPart(call, o, take, meta).value.params.infusions == o.infusions
  {
    hide TransferFungibleArgs, TransferNonFungibleArgs, MintFungibleArgs, BurnFungibleArgs, BurnNonFungibleArgs, PhantasmaMintFacts,
         IsNftAddress, TokenInfoCodec;
  }
}
