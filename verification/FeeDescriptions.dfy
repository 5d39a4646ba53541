/** What describing a message answers: which messages are refused, how many operations come out, which of
    them takes the returned assets, and with which facts each is priced. */
module FeeDescriptions {
  import opened Wrappers
  import opened Words64
  import opened Codecs
  import M = Messages
  import opened GasConfigs
  import opened FeeModel
  import opened FeeEstimator
  import opened FeeSettlement
  import opened FeeExactness
  import opened TokenCalls
  import opened TokenMetadata
  import opened FeePlan
  import opened FeePlanning
  import opened FeeBatches

  /** The first operation of a list that burns NFT instances. */
  predicate FirstBurn(parts: seq<NativeFeePart>, i: nat)
    requires i < |parts|
  {
    parts[i].kind == BurnNonFungible && forall j :: 0 <= j < i ==> parts[j].kind != BurnNonFungible
  }

  function Taking(p: NativeFeePart, o: FeePlanOptions): NativeFeePart {
    p.(params := p.params.(infusions := o.infusions))
  }

  /** The operations of the calls, each described alone, with the returned assets at the first burn. */
  predicate TakenOnce(parts: seq<NativeFeePart>, bare: seq<NativeFeePart>, o: FeePlanOptions) {
    |parts| == |bare| && forall i :: 0 <= i < |bare| ==> parts[i] == if FirstBurn(bare, i) then Taking(bare[i], o) else bare[i]
  }

  lemma FirstBurnExtends(bare: seq<NativeFeePart>, b: NativeFeePart, i: nat)
    requires i <= |bare|
    ensures FirstBurn(bare + [b], i) <==> if i < |bare| then FirstBurn(bare, i) else b.kind == BurnNonFungible && !HasBurn(bare)
  {
    var all := bare + [b];
    assert forall j :: 0 <= j < |bare| ==> all[j] == bare[j];
  }

  lemma TakenNext(parts: seq<NativeFeePart>, bare: seq<NativeFeePart>, p: NativeFeePart, b: NativeFeePart, o: FeePlanOptions)
    requires TakenOnce(parts, bare, o)
    requires p == if b.kind == BurnNonFungible && !HasBurn(bare) then Taking(b, o) else b
    ensures TakenOnce(parts + [p], bare + [b], o)
    ensures HasBurn(parts) <==> HasBurn(bare)
  {
    hide FirstBurn, HasBurn;
    forall i | 0 <= i < |bare + [b]|
      ensures (parts + [p])[i] == if FirstBurn(bare + [b], i) then Taking((bare + [b])[i], o) else (bare + [b])[i]
    {
      FirstBurnExtends(bare, b, i);
    }
    SameBurnKinds(parts, bare, o);
  }

  lemma SameBurnKinds(parts: seq<NativeFeePart>, bare: seq<NativeFeePart>, o: FeePlanOptions)
    requires TakenOnce(parts, bare, o)
    ensures HasBurn(parts) <==> HasBurn(bare)
  {
    assert forall i :: 0 <= i < |bare| ==> parts[i].kind == bare[i].kind;
  }

  /** A batch is described exactly when every call is by itself, and the caller has read the returned
      assets where some call burns. Its operations are those of the calls one by one, and the first burn
      takes all the returned assets. */
  lemma {:induction false} BatchDescribed(calls: seq<M.TxMsgCall>, o: FeePlanOptions, meta: MetaReader)
    ensures CallsParts(calls, o, meta).Some? <==> AllDescribed(calls, o, meta) && (HasBurn(BareParts(calls, o, meta)) ==> o.infusionsRead)
    ensures CallsParts(calls, o, meta).Some? ==> TakenOnce(CallsParts(calls, o, meta).value, BareParts(calls, o, meta), o)
  {
    hide CallPart, Bare, HasBurn, FirstBurn, TakenOnce;
    if calls == [] {
      NothingTaken(calls, o, meta);
    } else {
      var n := |calls| - 1;
      BatchDescribed(calls[..n], o, meta);
      OneMoreDescribed(calls, o, meta);
      BareIs(calls[n], o, meta);
      TakingIsBurning(calls[n], o, meta);
      if AllDescribed(calls, o, meta) {
        var bare, b := BareParts(calls[..n], o, meta), Bare(calls[n], o, meta).value;
        assert BareParts(calls, o, meta) == bare + [b];
        BurnAppears(bare, b);
        if CallsParts(calls[..n], o, meta).Some? {
          var parts := CallsParts(calls[..n], o, meta).value;
          SameBurnKinds(parts, bare, o);
          if CallPart(calls[n], o, !HasBurn(parts), meta).Some? {
            TakenNext(parts, bare, CallPart(calls[n], o, !HasBurn(parts), meta).value, b, o);
          }
        }
      }
    }
  }

  lemma NothingTaken(calls: seq<M.TxMsgCall>, o: FeePlanOptions, meta: MetaReader)
    requires calls == []
    ensures CallsParts(calls, o, meta) == Some([]) && AllDescribed(calls, o, meta) && BareParts(calls, o, meta) == []
    ensures TakenOnce([], [], o) && !HasBurn([])
  {
    hide CallPart;
  }

  /** The messages a plan understands. */
  predicate Understood(body: M.TxBody, o: FeePlanOptions, meta: MetaReader) {
    match body
    case PhantasmaRaw(_) => false
    case BurnNonFungible(_) => o.infusionsRead
    case BurnNonFungibleGasPayer(_) => o.infusionsRead
    case Call(c) => Bare(c, o, meta).Some? && (IsBurn(Bare(c, o, meta)) ==> o.infusionsRead)
    case CallMulti(cs) => AllDescribed(cs, o, meta) && (HasBurn(BareParts(cs, o, meta)) ==> o.infusionsRead)
    case _ => true
  }

  /** No operation is priced with a fact cheaper than the caller stated. */
  predicate PricedAsStated(parts: seq<NativeFeePart>, o: FeePlanOptions) {
    forall i :: 0 <= i < |parts| ==> FactsBelow(o.facts, parts[i].params.facts)
  }

  /** Where the facts of an operation come from: the options, with or without the two facts that belong to
      one kind of operation, or their costlier readings throughout. */
  predicate FactsOf(f: StateFacts, o: FeePlanOptions) {
    || f == StateParams(o).facts || f == o.facts.(seriesHasMetaId := true)
    || f == COSTLIEST || f == COSTLIEST.(seriesHasMetaId := o.facts.seriesHasMetaId)
  }

  lemma FactsOfAreStated(f: StateFacts, o: FeePlanOptions)
    requires FactsOf(f, o)
    ensures FactsBelow(o.facts, f)
  {
  }

  lemma CreationFacts(args: seq<Byte>, meta: MetaReader)
    ensures CreationPart(args, meta).Some? ==> CreationPart(args, meta).value.params.facts == COSTLIEST
    ensures NamePart(args).Some? ==> NamePart(args).value.params.facts == COSTLIEST
  {
    hide TokenInfoCodec;
  }

  lemma CallAsStated(call: M.TxMsgCall, o: FeePlanOptions, take: bool, meta: MetaReader)
    requires CallPart(call, o, take, meta).Some?
    ensures FactsBelow(o.facts, CallPart(call, o, take, meta).value.params.facts)
  {
    hide TransferFungibleArgs, TransferNonFungibleArgs, MintFungibleArgs, BurnFungibleArgs, BurnNonFungibleArgs, PhantasmaMintFacts,
         IsNftAddress, CreationPart, NamePart, FactsBelow;
    CreationFacts(call.args, meta);
    FactsOfAreStated(CallPart(call, o, take, meta).value.params.facts, o);
  }

  lemma {:induction false} CallsAsStated(calls: seq<M.TxMsgCall>, o: FeePlanOptions, meta: MetaReader)
    requires CallsParts(calls, o, meta).Some?
    ensures PricedAsStated(CallsParts(calls, o, meta).value, o)
  {
    hide CallPart, FactsBelow;
    if calls != [] {
      var n := |calls| - 1;
      CallsAsStated(calls[..n], o, meta);
      CallAsStated(calls[n], o, !HasBurn(CallsParts(calls[..n], o, meta).value), meta);
    }
  }

  /** A message is described exactly when it is understood; a batch gives one operation per call and any
      other message one; and each is priced with the facts as stated or at their costlier reading. */
  lemma MessageDescribed(body: M.TxBody, o: FeePlanOptions, meta: MetaReader)
    ensures MessageParts(body, o, meta).Some? <==> Understood(body, o, meta)
    ensures MessageParts(body, o, meta).Some? ==>
      && |MessageParts(body, o, meta).value| == (if body.CallMulti? then |body.calls| else 1)
      && PricedAsStated(MessageParts(body, o, meta).value, o)
  {
    hide CallPart, CallsParts, Bare, AllDescribed, BareParts, IsNftAddress, HasBurn;
    match body
    case Call(c) =>
      BareIs(c, o, meta);
      TakingIsBurning(c, o, meta);
      if CallPart(c, o, true, meta).Some? { CallAsStated(c, o, true, meta); }
    case CallMulti(cs) =>
      BatchDescribed(cs, o, meta);
      if CallsParts(cs, o, meta).Some? { CallsAsStated(cs, o, meta); }
    case _ =>
  }
}
