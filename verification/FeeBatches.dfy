/** Batches of calls: the plan does not depend on their order, a movement costs the same as a call and
    as a native message, the burned instances are the ones priced, and a batch that mixes a burn with
    other operations can be called exact when it is not. */
module FeeBatches {
  import opened Wrappers
  import opened Words64
  import opened Codecs
  import opened WireFormat
  import opened IntX
  import M = Messages
  import opened MessageCodecs
  import opened BodyCodecs
  import opened CallCodec
  import opened Envelope
  import opened Views
  import opened TxViews
  import opened EnvelopeViews
  import opened TokenCalls
  import opened GasConfigs
  import opened FeeModel
  import opened FeeEstimator
  import opened FeeSettlement
  import opened FeeExactness
  import opened TokenMetadata
  import opened FeePlan
  import opened FeePlanning

  // ---- the calls without returned assets ----------------------------------------------------

  /** A call described as one that takes none of the returned assets. */
  function Bare(call: M.TxMsgCall, o: FeePlanOptions, meta: MetaReader): Option<NativeFeePart> {
    CallPart(call, o, false, meta)
  }

  predicate IsBurn(part: Option<NativeFeePart>) {
    part.Some? && part.value.kind == BurnNonFungible
  }

  /** Only a burn is described differently when it takes the assets. */
  lemma TakingIsBurning(call: M.TxMsgCall, o: FeePlanOptions, meta: MetaReader)
    ensures CallPart(call, o, true, meta) ==
      if !IsBurn(Bare(call, o, meta)) then Bare(call, o, meta)
      else if !o.infusionsRead then None
      else Some(NativeFeePart(BurnNonFungible, Bare(call, o, meta).value.params.(infusions := o.infusions)))
    ensures IsBurn(Bare(call, o, meta)) ==> Bare(call, o, meta).value.params.infusions == []
  {
    hide TransferFungibleArgs, TransferNonFungibleArgs, MintFungibleArgs, BurnFungibleArgs, BurnNonFungibleArgs, PhantasmaMintFacts,
         IsNftAddress, TokenInfoCodec;
  }

  lemma InfusedBurn(p: NativeFeeParams, assets: seq<InfusedAsset>, config: GasConfig)
    requires p.SizesFit() && p.infusions == []
    ensures p.(infusions := assets).SizesFit()
    ensures BurnCharges(p.(infusions := assets), config)
         == Plus(BurnCharges(p, config), ReturnCharges(assets, config))
    ensures Accepted(NativeFeePart(BurnNonFungible, p.(infusions := assets)), config) <==>
      Accepted(NativeFeePart(BurnNonFungible, p), config) && ReturnsAccepted(assets)
  {
    hide InstanceRows, Product, FreeToken;
    SameRows(p, assets, p.count);
    assert ReturnCharges([], config) == NOTHING;
    ReturnsChargeNoPolicy(assets, config);
  }

  lemma {:induction false} ReturnsChargeNoPolicy(assets: seq<InfusedAsset>, config: GasConfig)
    ensures ReturnCharges(assets, config).policy == 0 && ReturnCharges(assets, config).result == 0
  {
    hide Product;
    if assets != [] { ReturnsChargeNoPolicy(assets[..|assets| - 1], config); }
  }

  lemma {:induction false} SameRows(p: NativeFeeParams, assets: seq<InfusedAsset>, n: nat)
    requires p.SizesFit() && n <= p.count
    ensures p.(infusions := assets).SizesFit() && InstanceRows(p.(infusions := assets), n, false) == InstanceRows(p, n, false)
  {
    hide RowQuanta;
    if n > 0 { SameRows(p, assets, n - 1); }
  }

  predicate AllDescribed(calls: seq<M.TxMsgCall>, o: FeePlanOptions, meta: MetaReader) {
    forall i :: 0 <= i < |calls| ==> Bare(calls[i], o, meta).Some?
  }

  function BareParts(calls: seq<M.TxMsgCall>, o: FeePlanOptions, meta: MetaReader): (r: seq<NativeFeePart>)
    requires AllDescribed(calls, o, meta)
    ensures |r| == |calls| && forall i :: 0 <= i < |calls| ==> Some(r[i]) == Bare(calls[i], o, meta)
  {
    if calls == [] then [] else BareParts(calls[..|calls| - 1], o, meta) + [Bare(calls[|calls| - 1], o, meta).value]
  }

  lemma BarePartsFit(calls: seq<M.TxMsgCall>, o: FeePlanOptions, meta: MetaReader)
    requires AllDescribed(calls, o, meta)
    ensures AllFit(BareParts(calls, o, meta))
  {
    hide CallPart, NativeFeeParams.SizesFit, BareParts;
    forall i | 0 <= i < |calls| ensures BareParts(calls, o, meta)[i].params.SizesFit() {
      CallPartFits(calls[i], o, false, meta);
    }
  }

  /** What the returned assets add to a batch that burns. */
  function Returned(parts: seq<NativeFeePart>, o: FeePlanOptions, config: GasConfig): Charges {
    if HasBurn(parts) then ReturnCharges(o.infusions, config) else NOTHING
  }

  /** A described batch charges its bare calls plus the returned assets once, whichever burn takes
      them. */
  predicate Summed(calls: seq<M.TxMsgCall>, o: FeePlanOptions, meta: MetaReader, config: GasConfig) {
    && (CallsParts(calls, o, meta).Some? <==>
         AllDescribed(calls, o, meta) && (HasBurn(BareParts(calls, o, meta)) ==> o.infusionsRead))
    && (CallsParts(calls, o, meta).Some? ==>
         var parts, bare := CallsParts(calls, o, meta).value, BareParts(calls, o, meta);
         && AllFit(parts) && AllFit(bare) && (HasBurn(parts) <==> HasBurn(bare)) && KindsOf(parts) == KindsOf(bare)
         && BatchCharges(parts, config) == Plus(BatchCharges(bare, config), Returned(bare, o, config))
         && (AllAccepted(parts, config) <==> AllAccepted(bare, config) && (HasBurn(bare) ==> ReturnsAccepted(o.infusions))))
  }

  lemma {:induction false} CallsSum(calls: seq<M.TxMsgCall>, o: FeePlanOptions, meta: MetaReader, config: GasConfig)
    ensures Summed(calls, o, meta, config)
  {
    hide Summed;
    if calls == [] {
      NoCalls(calls, o, meta, config);
    } else {
      CallsSum(calls[..|calls| - 1], o, meta, config);
      CallsNext(calls, o, meta, config);
    }
  }

  lemma NoCalls(calls: seq<M.TxMsgCall>, o: FeePlanOptions, meta: MetaReader, config: GasConfig)
    requires calls == []
    ensures Summed(calls, o, meta, config)
  {
    hide AllDescribed, BareParts, CallsParts, AllFit, HasBurn, BatchCharges, AllAccepted, KindsOf, ReturnsAccepted, Returned, Plus;
    NothingDescribed(calls, o, meta);
    NothingCharged(BareParts(calls, o, meta), o, config);
  }

  lemma NothingDescribed(calls: seq<M.TxMsgCall>, o: FeePlanOptions, meta: MetaReader)
    requires calls == []
    ensures AllDescribed(calls, o, meta) && |BareParts(calls, o, meta)| == 0 && CallsParts(calls, o, meta) == Some(BareParts(calls, o, meta))
  {
    hide CallPart, Bare;
  }

  lemma NothingCharged(parts: seq<NativeFeePart>, o: FeePlanOptions, config: GasConfig)
    requires |parts| == 0
    ensures AllFit(parts) && !HasBurn(parts) && AllAccepted(parts, config)
    ensures BatchCharges(parts, config) == Plus(BatchCharges(parts, config), Returned(parts, o, config))
  {
    hide PartCharges, Accepted, ReturnCharges, Plus;
    assert BatchCharges(parts, config) == NOTHING && Returned(parts, o, config) == NOTHING;
    NothingPlus(BatchCharges(parts, config));
  }

  /** One more call. */
  lemma CallsNext(calls: seq<M.TxMsgCall>, o: FeePlanOptions, meta: MetaReader, config: GasConfig)
    requires calls != [] && Summed(calls[..|calls| - 1], o, meta, config)
    ensures Summed(calls, o, meta, config)
  {
    hide CallPart, Bare, PartCharges, NativeFeeParams.SizesFit, Accepted, ReturnCharges, ReturnsAccepted, BatchCharges, AllFit, AllAccepted, HasBurn, KindsOf;
    var n := |calls| - 1;
    var call, front := calls[n], calls[..n];
    BareIs(call, o, meta);
    TakingIsBurning(call, o, meta);
    OneMoreDescribed(calls, o, meta);
    if AllDescribed(calls, o, meta) {
      var b, bare := Bare(call, o, meta).value, BareParts(front, o, meta);
      assert BareParts(calls, o, meta) == bare + [b];
      BurnAppears(bare, b);
      if CallsParts(front, o, meta).Some? && CallPart(call, o, !HasBurn(bare), meta).Some? {
        var parts, p := CallsParts(front, o, meta).value, CallPart(call, o, !HasBurn(bare), meta).value;
        assert CallsParts(calls, o, meta) == Some(parts + [p]);
        BurnAppears(parts, p);
        CallPartFits(call, o, !HasBurn(bare), meta);
        CallPartFits(call, o, false, meta);
        BatchNext(parts, p, config);
        BatchNext(bare, b, config);
        if b.kind == BurnNonFungible && !HasBurn(bare) {
          InfusedBurn(b.params, o.infusions, config);
          BurnPartCharges(b, config);
          BurnPartCharges(p, config);
        }
      }
    }
  }

  lemma OneMoreDescribed(calls: seq<M.TxMsgCall>, o: FeePlanOptions, meta: MetaReader)
    requires calls != []
    ensures AllDescribed(calls, o, meta) <==> AllDescribed(calls[..|calls| - 1], o, meta) && Bare(calls[|calls| - 1], o, meta).Some?
  {
    hide Bare;
    assert forall i :: 0 <= i < |calls| - 1 ==> calls[..|calls| - 1][i] == calls[i];
  }

  lemma BareIs(call: M.TxMsgCall, o: FeePlanOptions, meta: MetaReader)
    ensures Bare(call, o, meta) == CallPart(call, o, false, meta)
  {
    hide CallPart;
  }

  lemma BurnPartCharges(p: NativeFeePart, config: GasConfig)
    requires p.params.SizesFit() && p.kind == BurnNonFungible
    ensures PartCharges(p, config) == BurnCharges(p.params, config)
  {
    hide BurnCharges;
  }

  lemma BatchNext(parts: seq<NativeFeePart>, p: NativeFeePart, config: GasConfig)
    requires AllFit(parts) && p.params.SizesFit()
    ensures AllFit(parts + [p]) && BatchCharges(parts + [p], config) == Plus(BatchCharges(parts, config), PartCharges(p, config))
    ensures AllAccepted(parts + [p], config) <==> AllAccepted(parts, config) && Accepted(p, config)
    ensures KindsOf(parts + [p]) == KindsOf(parts) + [p.kind]
  {
    hide PartCharges, Accepted, NativeFeeParams.SizesFit;
    assert (parts + [p])[..|parts|] == parts;
    if AllAccepted(parts + [p], config) {
      forall i | 0 <= i < |parts| ensures Accepted(parts[i], config) { assert (parts + [p])[i] == parts[i]; }
      assert Accepted((parts + [p])[|parts|], config);
    }
  }

  // ---- the order of the calls ---------------------------------------------------------------

  lemma {:induction false} BareOrder(calls: seq<M.TxMsgCall>, other: seq<M.TxMsgCall>, o: FeePlanOptions, meta: MetaReader)
    requires multiset(calls) == multiset(other) && AllDescribed(calls, o, meta)
    ensures AllDescribed(other, o, meta) && multiset(BareParts(calls, o, meta)) == multiset(BareParts(other, o, meta))
    decreases |calls|
  {
    hide Bare, BareParts, AllDescribed;
    DescribedElements(calls, other, o, meta);
    assert |multiset(calls)| == |calls| && |multiset(other)| == |other|;
    if calls != [] {
      var n := |calls| - 1;
      assert calls[n] in multiset(other);
      var i :| 0 <= i < |other| && other[i] == calls[n];
      var rest := other[..i] + other[i + 1..];
      WithoutOne(other, i);
      WithoutOne(calls, n);
      assert calls[..n] + calls[n + 1..] == calls[..n];
      BareWithout(calls, n, o, meta);
      BareWithout(other, i, o, meta);
      BareOrder(calls[..n], rest, o, meta);
    } else {
      assert other == [];
    }
  }

  lemma DescribedElements(calls: seq<M.TxMsgCall>, other: seq<M.TxMsgCall>, o: FeePlanOptions, meta: MetaReader)
    requires multiset(calls) == multiset(other) && AllDescribed(calls, o, meta)
    ensures AllDescribed(other, o, meta)
  {
    hide Bare;
    forall k | 0 <= k < |other| ensures Bare(other[k], o, meta).Some? {
      assert other[k] in multiset(other);
      assert other[k] in multiset(calls);
    }
  }

  lemma {:induction false} BareWithout(calls: seq<M.TxMsgCall>, i: nat, o: FeePlanOptions, meta: MetaReader)
    requires AllDescribed(calls, o, meta) && i < |calls|
    ensures AllDescribed(calls[..i] + calls[i + 1..], o, meta)
    ensures multiset(BareParts(calls, o, meta)) == multiset(BareParts(calls[..i] + calls[i + 1..], o, meta)) + multiset{Bare(calls[i], o, meta).value}
  {
    hide Bare;
    var parts := BareParts(calls, o, meta);
    var rest := BareParts(calls[..i] + calls[i + 1..], o, meta);
    assert rest == parts[..i] + parts[i + 1..];
    assert parts == parts[..i] + [parts[i]] + parts[i + 1..];
  }

  /** The bytes of the calls do not depend on their order either. */
  lemma {:induction false} EncOrder<T(!new)>(c: Codec<T>, items: seq<T>, other: seq<T>)
    requires multiset(items) == multiset(other)
    ensures |EncAll(c, items)| == |EncAll(c, other)|
    decreases |items|
  {
    assert |multiset(items)| == |items| && |multiset(other)| == |other|;
    if items != [] {
      var n := |items| - 1;
      assert items[n] in multiset(other);
      var i :| 0 <= i < |other| && other[i] == items[n];
      WithoutOne(other, i);
      WithoutOne(items, n);
      assert items[..n] + items[n + 1..] == items[..n];
      EncOrder(c, items[..n], other[..i] + other[i + 1..]);
      EncWithout(c, other, i);
    }
  }

  lemma {:induction false} EncWithout<T>(c: Codec<T>, items: seq<T>, i: nat)
    requires i < |items|
    ensures |EncAll(c, items)| == |EncAll(c, items[..i] + items[i + 1..])| + |c.enc(items[i])|
  {
    var n := |items| - 1;
    var rest := items[..i] + items[i + 1..];
    if i == n {
      assert rest == items[..n];
    } else {
      EncWithout(c, items[..n], i);
      assert rest[..|rest| - 1] == items[..n][..i] + items[..n][i + 1..];
    }
  }

  lemma BurnsOfBag(parts: seq<NativeFeePart>, other: seq<NativeFeePart>, config: GasConfig)
    requires multiset(parts) == multiset(other)
    ensures HasBurn(parts) ==> HasBurn(other)
    ensures AllAccepted(parts, config) ==> AllAccepted(other, config)
    ensures Budgeted(parts) ==> Budgeted(other)
  {
    hide Accepted;
    forall k | 0 <= k < |parts| ensures exists j :: 0 <= j < |other| && other[j] == parts[k] {
      assert parts[k] in multiset(parts);
      assert parts[k] in multiset(other);
    }
    forall k | 0 <= k < |other| ensures exists j :: 0 <= j < |parts| && parts[j] == other[k] {
      assert other[k] in multiset(other);
      assert other[k] in multiset(parts);
    }
  }

  lemma CallsQuoteIgnoresOrder(calls: seq<M.TxMsgCall>, other: seq<M.TxMsgCall>, o: FeePlanOptions, meta: MetaReader, config: GasConfig)
    requires multiset(calls) == multiset(other) && CallsParts(calls, o, meta).Some?
    ensures CallsParts(other, o, meta).Some?
    ensures
      var a, b := CallsParts(calls, o, meta).value, CallsParts(other, o, meta).value;
      && AllFit(a) && AllFit(b) && BatchCharges(a, config) == BatchCharges(b, config)
      && (AllAccepted(a, config) <==> AllAccepted(b, config)) && (Budgeted(a) <==> Budgeted(b))
  {
    hide CallPart, Bare, BareParts, AllDescribed, CallsParts, ReturnCharges, ReturnsAccepted, BatchCharges, AllFit, AllAccepted, HasBurn, Budgeted, KindsOf;
    CallsSum(calls, o, meta, config);
    CallsSum(other, o, meta, config);
    BareOrder(calls, other, o, meta);
    var x, y := BareParts(calls, o, meta), BareParts(other, o, meta);
    BarePartsFit(other, o, meta);
    BurnsOfBag(x, y, config);
    BurnsOfBag(y, x, config);
    BatchOrder(x, y, config);
    SameKindsBudget(CallsParts(calls, o, meta).value, x);
    SameKindsBudget(CallsParts(other, o, meta).value, y);
  }

  lemma SameKindsBudget(parts: seq<NativeFeePart>, other: seq<NativeFeePart>)
    requires KindsOf(parts) == KindsOf(other)
    ensures Budgeted(parts) <==> Budgeted(other)
  {
    assert |parts| == |other|;
    assert forall i :: 0 <= i < |parts| ==> parts[i].kind == KindsOf(parts)[i] == KindsOf(other)[i] == other[i].kind;
  }

  lemma BatchSize(msg: M.TxMsg, calls: seq<M.TxMsgCall>, other: seq<M.TxMsgCall>)
    requires msg.body == M.CallMulti(calls) && |EncAll(TxMsgCallCodec(), calls)| == |EncAll(TxMsgCallCodec(), other)|
    ensures |SerializeTx(msg)| == |SerializeTx(msg.(body := M.CallMulti(other)))|
  {
    hide TxCodec, HeaderCodec, BodyCodec, TxMsgCallCodec, EncAll;
    var msg' := msg.(body := M.CallMulti(other));
    TxImageIs(msg, []);
    TxImageIs(msg', []);
    CallMultiBodyShape(calls);
    CallMultiBodyShape(other);
    assert [] + SerializeTx(msg) == SerializeTx(msg) && [] + SerializeTx(msg') == SerializeTx(msg');
  }

  lemma QuoteIgnoresOrder(msg: M.TxMsg, calls: seq<M.TxMsgCall>, other: seq<M.TxMsgCall>, config: GasConfig, o: FeePlanOptions, meta: MetaReader)
    requires msg.body == M.CallMulti(calls) && multiset(calls) == multiset(other) && MessageParts(msg.body, o, meta).Some?
    ensures MessageParts(M.CallMulti(other), o, meta).Some?
    ensures EnvelopeBytes(msg.(body := M.CallMulti(other)), o.witnessCount) == EnvelopeBytes(msg, o.witnessCount)
    ensures MessageQuote(msg.(body := M.CallMulti(other)), config, o, meta) == MessageQuote(msg, config, o, meta)
    ensures Budgeted(MessageParts(M.CallMulti(other), o, meta).value) <==> Budgeted(MessageParts(msg.body, o, meta).value)
  {
    hide CallsParts, SerializeTx, BatchCharges, AllFit, AllAccepted, Settle, Narrow, Budgeted, TxMsgCallCodec, EncAll;
    CallsQuoteIgnoresOrder(calls, other, o, meta, config);
    EncOrder(TxMsgCallCodec(), calls, other);
    BatchSize(msg, calls, other);
  }

  /** Reordering the calls of a batch changes neither its bill, offer, ceiling and size nor whether the
      plan is exact. */
  lemma PlanIgnoresOrder(msg: M.TxMsg, calls: seq<M.TxMsgCall>, other: seq<M.TxMsgCall>, config: GasConfig, o: FeePlanOptions, meta: MetaReader)
    requires msg.body == M.CallMulti(calls) && multiset(calls) == multiset(other) && PlanOf(msg, config, o, meta).Some?
    ensures PlanOf(msg.(body := M.CallMulti(other)), config, o, meta).Some?
    ensures
      var a, b := PlanOf(msg, config, o, meta).value, PlanOf(msg.(body := M.CallMulti(other)), config, o, meta).value;
      a.estimate == b.estimate && a.exact == b.exact && a.envelopeBytes == b.envelopeBytes
  {
    hide MessageParts, MessageQuote, EnvelopeBytes, Budgeted, KindsOf;
    NoQuoteWithoutParts(msg, config, o, meta);
    QuoteIgnoresOrder(msg, calls, other, config, o, meta);
    var cheap := o.(facts := CHEAPEST);
    CheapestIsBelow(o.facts);
    PartsCheaper(msg.body, o, CHEAPEST, meta);
    assert With(o, CHEAPEST) == cheap;
    QuoteIgnoresOrder(msg, calls, other, config, cheap, meta);
  }

  lemma NoQuoteWithoutParts(msg: M.TxMsg, config: GasConfig, o: FeePlanOptions, meta: MetaReader)
    ensures MessageQuote(msg, config, o, meta).Some? ==> MessageParts(msg.body, o, meta).Some?
  {
    hide MessageParts, Quote, EnvelopeBytes;
  }
}
