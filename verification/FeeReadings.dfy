/** When a plan that calls itself exact is a prediction. Planning compares two readings of the facts;
    two more readings of the same message decide the claim for every reading in between. */
module FeeReadings {
  import opened Wrappers
  import opened Words64
  import M = Messages
  import opened Envelope
  import opened GasConfigs
  import opened FeeModel
  import opened FeeEstimator
  import opened FeeSettlement
  import opened FeeExactness
  import opened TokenMetadata
  import opened FeePlan
  import opened FeePlanning

  // ---- one fact decides what the burns give back --------------------------------------------

  /** Every NFT burn reads its ROM with the same meta-id row. */
  predicate BurnsRead(parts: seq<NativeFeePart>, rom: bool) {
    forall i :: 0 <= i < |parts| && parts[i].kind == BurnNonFungible ==> parts[i].params.facts.romHasMetaId == rom
  }

  lemma CallReads(call: M.TxMsgCall, o: FeePlanOptions, take: bool, meta: MetaReader)
    requires CallPart(call, o, take, meta).Some?
    ensures BurnsRead([CallPart(call, o, take, meta).value], o.facts.romHasMetaId)
  {
    hide IsNftAddress, TokenInfoCodec;
  }

  lemma {:induction false} CallsRead(calls: seq<M.TxMsgCall>, o: FeePlanOptions, meta: MetaReader)
    requires CallsParts(calls, o, meta).Some?
    ensures BurnsRead(CallsParts(calls, o, meta).value, o.facts.romHasMetaId)
  {
    hide CallPart;
    if calls != [] {
      var n := |calls| - 1;
      CallsRead(calls[..n], o, meta);
      CallReads(calls[n], o, !HasBurn(CallsParts(calls[..n], o, meta).value), meta);
      var p := CallsParts(calls, o, meta).value;
      assert p[|p| - 1] == [p[|p| - 1]][0];
    }
  }

  lemma MessageReads(body: M.TxBody, o: FeePlanOptions, meta: MetaReader)
    requires MessageParts(body, o, meta).Some?
    ensures BurnsRead(MessageParts(body, o, meta).value, o.facts.romHasMetaId)
  {
    hide CallPart, CallsParts, IsNftAddress;
    match body
    case Call(c) => CallReads(c, o, true, meta);
    case CallMulti(cs) => CallsRead(cs, o, meta);
    case _ =>
  }

  /** With that fact held fixed no cheaper reading changes the rows a batch deletes. */
  lemma {:induction false} SameDeleted(ps: seq<NativeFeePart>, qs: seq<NativeFeePart>, rom: bool, config: GasConfig)
    requires AllCheaper(ps, qs) && AllFit(qs) && AllFit(ps) && BurnsRead(ps, rom) && BurnsRead(qs, rom)
    ensures BatchCharges(ps, config).deleted == BatchCharges(qs, config).deleted
  {
    hide PartCharges, Accepted, NativeFeeParams.SizesFit;
    if ps != [] {
      var n := |ps| - 1;
      SameDeleted(ps[..n], qs[..n], rom, config);
      PartMonotone(ps[n], qs[n], config);
    }
  }

  // ---- quotes at one reading of the meta-id row ---------------------------------------------

  /** Neither rows nor result bytes leave the calculator's 64-bit words. */
  predicate TotalsFit(body: M.TxBody, config: GasConfig, o: FeePlanOptions, meta: MetaReader) {
    MessageParts(body, o, meta).Some? &&
    (PartsFit(body, o, meta);
     NoWrap(BatchCharges(MessageParts(body, o, meta).value, config)))
  }

  /** With romHasMetaId unchanged, cheaper facts never raise the quote, covered or not. */
  lemma CheaperQuotesLess(msg: M.TxMsg, config: GasConfig, o: FeePlanOptions, meta: MetaReader, f: StateFacts)
    requires FactsBelow(f, o.facts) && f.romHasMetaId == o.facts.romHasMetaId
    requires MessageQuote(msg, config, o, meta).Some? && TotalsFit(msg.body, config, o, meta)
    ensures MessageQuote(msg, config, With(o, f), meta).Some? && TotalsFit(msg.body, config, With(o, f), meta)
    ensures QuoteBelow(MessageQuote(msg, config, With(o, f), meta).value, MessageQuote(msg, config, o, meta).value)
  {
    hide MessageParts, EnvelopeBytes, BatchCharges, AllFit, AllAccepted, AllCheaper, Settle, Narrow, Priced, FactsBelow, BurnsRead;
    PartsFit(msg.body, o, meta);
    PartsCheaper(msg.body, o, f, meta);
    var ps, qs := MessageParts(msg.body, With(o, f), meta).value, MessageParts(msg.body, o, meta).value;
    PartsFit(msg.body, With(o, f), meta);
    MessageReads(msg.body, o, meta);
    MessageReads(msg.body, With(o, f), meta);
    BatchMonotone(ps, qs, config);
    SameDeleted(ps, qs, f.romHasMetaId, config);
    var transaction := TransactionParams(EnvelopeBytes(msg, o.witnessCount), 0);
    PricedMonotone(BatchCharges(ps, config), BatchCharges(qs, config), config, transaction);
    SettleIsPriced(BatchCharges(ps, config), config, transaction);
    SettleIsPriced(BatchCharges(qs, config), config, transaction);
  }

  /** A message that can be quoted is quoted under every cheaper reading. */
  lemma CheaperIsQuoted(msg: M.TxMsg, config: GasConfig, o: FeePlanOptions, meta: MetaReader, f: StateFacts)
    requires FactsBelow(f, o.facts) && MessageQuote(msg, config, o, meta).Some? && TotalsFit(msg.body, config, o, meta)
    ensures MessageQuote(msg, config, With(o, f), meta).Some? && TotalsFit(msg.body, config, With(o, f), meta)
  {
    hide MessageParts, EnvelopeBytes, BatchCharges, AllFit, AllAccepted, AllCheaper, Settle, Narrow, Priced, FactsBelow;
    PartsFit(msg.body, o, meta);
    PartsCheaper(msg.body, o, f, meta);
    PartsFit(msg.body, With(o, f), meta);
    BatchMonotone(MessageParts(msg.body, With(o, f), meta).value, MessageParts(msg.body, o, meta).value, config);
    var transaction := TransactionParams(EnvelopeBytes(msg, o.witnessCount), 0);
    SettleIsPriced(BatchCharges(MessageParts(msg.body, With(o, f), meta).value, config), config, transaction);
    SettleIsPriced(BatchCharges(MessageParts(msg.body, o, meta).value, config), config, transaction);
  }

  // ---- the readings that decide -------------------------------------------------------------

  /** Under facts f the message quotes the bill, the offer and the ceiling it quotes under o. */
  predicate QuotesAlike(msg: M.TxMsg, config: GasConfig, o: FeePlanOptions, meta: MetaReader, f: StateFacts)
    requires MessageQuote(msg, config, o, meta).Some?
  {
    && MessageQuote(msg, config, With(o, f), meta).Some?
    && SameQuote(MessageQuote(msg, config, With(o, f), meta).value, MessageQuote(msg, config, o, meta).value)
  }

  /** All facts cheapest but the meta-id row, which stays as stated. */
  function CheapestButRom(g: StateFacts): StateFacts {
    CHEAPEST.(romHasMetaId := g.romHasMetaId)
  }

  /** All facts as stated but the meta-id row, which is absent. */
  function WithoutRom(g: StateFacts): StateFacts {
    g.(romHasMetaId := false)
  }

  /** Between two readings that agree with the stated one and on the meta-id row, every reading agrees. */
  lemma BetweenAlike(msg: M.TxMsg, config: GasConfig, o: FeePlanOptions, meta: MetaReader, lo: StateFacts, f: StateFacts, hi: StateFacts)
    requires FactsBelow(lo, f) && FactsBelow(f, hi) && FactsBelow(hi, o.facts)
    requires lo.romHasMetaId == f.romHasMetaId == hi.romHasMetaId
    requires MessageQuote(msg, config, o, meta).Some? && TotalsFit(msg.body, config, o, meta)
    requires QuotesAlike(msg, config, o, meta, lo) && QuotesAlike(msg, config, o, meta, hi)
    ensures QuotesAlike(msg, config, o, meta, f)
  {
    hide MessageQuote, TotalsFit;
    CheaperIsQuoted(msg, config, o, meta, hi);
    CheaperQuotesLess(msg, config, With(o, hi), meta, f);
    CheaperQuotesLess(msg, config, With(o, f), meta, lo);
    assert With(With(o, hi), f) == With(o, f) && With(With(o, f), lo) == With(o, lo);
  }

  /** Three readings decide all: a message quotes alike under every reading no costlier than the
      stated one if and only if it does with every fact cheapest, with every fact but the burned
      instances' meta id cheapest, and with that meta id alone denied. */
  lemma ThreeReadingsDecide(msg: M.TxMsg, config: GasConfig, o: FeePlanOptions, meta: MetaReader)
    requires MessageQuote(msg, config, o, meta).Some? && TotalsFit(msg.body, config, o, meta)
    ensures (forall f :: FactsBelow(f, o.facts) ==> QuotesAlike(msg, config, o, meta, f)) <==>
      && QuotesAlike(msg, config, o, meta, CHEAPEST) && QuotesAlike(msg, config, o, meta, CheapestButRom(o.facts))
      && QuotesAlike(msg, config, o, meta, WithoutRom(o.facts))
  {
    hide MessageQuote, TotalsFit, QuotesAlike;
    var g := o.facts;
    assert FactsBelow(CHEAPEST, g) && FactsBelow(CheapestButRom(g), g) && FactsBelow(WithoutRom(g), g);
    StatedAlike(msg, config, o, meta);
    if QuotesAlike(msg, config, o, meta, CHEAPEST) && QuotesAlike(msg, config, o, meta, CheapestButRom(g))
       && QuotesAlike(msg, config, o, meta, WithoutRom(g)) {
      forall f | FactsBelow(f, g) ensures QuotesAlike(msg, config, o, meta, f) {
        if f.romHasMetaId {
          BetweenAlike(msg, config, o, meta, CheapestButRom(g), f, g);
        } else {
          BetweenAlike(msg, config, o, meta, CHEAPEST, f, WithoutRom(g));
        }
      }
    }
  }

  lemma StatedAlike(msg: M.TxMsg, config: GasConfig, o: FeePlanOptions, meta: MetaReader)
    requires MessageQuote(msg, config, o, meta).Some?
    ensures QuotesAlike(msg, config, o, meta, o.facts)
  {
    hide MessageQuote;
    assert With(o, o.facts) == o;
  }

  /** A plan says exact when it budgets nothing and the cheapest reading quotes alike. */
  lemma ExactIs(msg: M.TxMsg, config: GasConfig, o: FeePlanOptions, meta: MetaReader)
    requires PlanOf(msg, config, o, meta).Some? && TotalsFit(msg.body, config, o, meta)
    ensures MessageQuote(msg, config, o, meta).Some? && MessageParts(msg.body, o, meta).Some?
    ensures PlanOf(msg, config, o, meta).value.exact <==>
      !Budgeted(MessageParts(msg.body, o, meta).value) && QuotesAlike(msg, config, o, meta, CHEAPEST)
  {
    hide MessageParts, MessageQuote, FactsBelow, Budgeted;
    assert MessageParts(msg.body, o, meta).Some?;
    hide TotalsFit;
    CheapestIsBelow(o.facts);
    CheaperIsQuoted(msg, config, o, meta, CHEAPEST);
    assert With(o, CHEAPEST) == o.(facts := CHEAPEST);
  }

  /** What `exact` claims, and when it is right: a plan that budgets nothing predicts the quote of
      every reading no costlier than the stated one if and only if it is exact and two further
      readings quote as planned. */
  lemma ExactDecided(msg: M.TxMsg, config: GasConfig, o: FeePlanOptions, meta: MetaReader)
    requires PlanOf(msg, config, o, meta).Some? && TotalsFit(msg.body, config, o, meta)
    ensures !Budgeted(MessageParts(msg.body, o, meta).value) && (forall f :: FactsBelow(f, o.facts) ==> QuotesAlike(msg, config, o, meta, f)) <==>
      && PlanOf(msg, config, o, meta).value.exact
      && QuotesAlike(msg, config, o, meta, CheapestButRom(o.facts)) && QuotesAlike(msg, config, o, meta, WithoutRom(o.facts))
  {
    hide PlanOf, MessageParts, MessageQuote, TotalsFit, QuotesAlike, FactsBelow, Budgeted;
    ExactIs(msg, config, o, meta);
    ThreeReadingsDecide(msg, config, o, meta);
  }

  /** A caller who denies the meta id may trust `exact`: it is then true exactly of the plans that
      budget nothing and hold under every cheaper reading. */
  lemma ExactWithoutRom(msg: M.TxMsg, config: GasConfig, o: FeePlanOptions, meta: MetaReader)
    requires PlanOf(msg, config, o, meta).Some? && TotalsFit(msg.body, config, o, meta) && !o.facts.romHasMetaId
    ensures PlanOf(msg, config, o, meta).value.exact <==>
      !Budgeted(MessageParts(msg.body, o, meta).value) && forall f :: FactsBelow(f, o.facts) ==> QuotesAlike(msg, config, o, meta, f)
  {
    hide PlanOf, MessageParts, MessageQuote, TotalsFit, QuotesAlike, FactsBelow, Budgeted;
    ExactIs(msg, config, o, meta);
    ExactDecided(msg, config, o, meta);
    StatedAlike(msg, config, o, meta);
    assert CheapestButRom(o.facts) == CHEAPEST && WithoutRom(o.facts) == o.facts;
  }

  // ---- when a plan is an upper bound --------------------------------------------------------

  /** Under facts f the message quotes a bill, an offer and a ceiling no higher than under o. */
  predicate QuotesAtMost(msg: M.TxMsg, config: GasConfig, o: FeePlanOptions, meta: MetaReader, f: StateFacts)
    requires MessageQuote(msg, config, o, meta).Some?
  {
    && MessageQuote(msg, config, With(o, f), meta).Some?
    && QuoteBelow(MessageQuote(msg, config, With(o, f), meta).value, MessageQuote(msg, config, o, meta).value)
  }

  /** Below a reading that agrees on the meta-id row and quotes no more than stated, none quotes more. */
  lemma CheaperAtMost(msg: M.TxMsg, config: GasConfig, o: FeePlanOptions, meta: MetaReader, f: StateFacts, hi: StateFacts)
    requires FactsBelow(f, hi) && FactsBelow(hi, o.facts) && f.romHasMetaId == hi.romHasMetaId
    requires MessageQuote(msg, config, o, meta).Some? && TotalsFit(msg.body, config, o, meta) && QuotesAtMost(msg, config, o, meta, hi)
    ensures QuotesAtMost(msg, config, o, meta, f)
  {
    hide MessageQuote, TotalsFit;
    CheaperIsQuoted(msg, config, o, meta, hi);
    CheaperQuotesLess(msg, config, With(o, hi), meta, f);
    assert With(With(o, hi), f) == With(o, f);
  }

  /** One reading decides whether a plan is an upper bound: no reading no costlier than the stated one
      quotes more than planned if and only if the stated one without the burned instances' meta id does
      not. */
  lemma UpperBoundExactly(msg: M.TxMsg, config: GasConfig, o: FeePlanOptions, meta: MetaReader)
    requires MessageQuote(msg, config, o, meta).Some? && TotalsFit(msg.body, config, o, meta)
    ensures (forall f :: FactsBelow(f, o.facts) ==> QuotesAtMost(msg, config, o, meta, f)) <==>
      QuotesAtMost(msg, config, o, meta, WithoutRom(o.facts))
  {
    hide MessageQuote, TotalsFit, QuotesAtMost;
    var g := o.facts;
    assert FactsBelow(WithoutRom(g), g);
    StatedAtMost(msg, config, o, meta);
    if QuotesAtMost(msg, config, o, meta, WithoutRom(g)) {
      forall f | FactsBelow(f, g) ensures QuotesAtMost(msg, config, o, meta, f) {
        CheaperAtMost(msg, config, o, meta, f, if f.romHasMetaId then g else WithoutRom(g));
      }
    }
  }

  lemma StatedAtMost(msg: M.TxMsg, config: GasConfig, o: FeePlanOptions, meta: MetaReader)
    requires MessageQuote(msg, config, o, meta).Some?
    ensures QuotesAtMost(msg, config, o, meta, o.facts)
  {
    hide MessageQuote;
    assert With(o, o.facts) == o;
  }
}
