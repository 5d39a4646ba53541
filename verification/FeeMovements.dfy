/** Token movements as module calls and as native messages, the instances a message burns, and a batch
    whose plan claims to be exact without being a prediction. */
module FeeMovements {
  import opened Wrappers
  import opened Words64
  import opened Positional
  import opened Codecs
  import opened WireFormat
  import opened IntX
  import M = Messages
  import opened MessageCodecs
  import opened BodyCodecs
  import opened CallCodec
  import opened Envelope
  import opened Views
  import opened TxViews
  import opened EnvelopeViews
  import opened TokenCalls
  import opened GasConfigs
  import opened FeeModel
  import opened FeeEstimator
  import opened FeeSettlement
  import opened FeeExactness
  import opened TokenMetadata
  import opened FeePlan
  import opened FeePlanning

  // ---- the same movement, called and native -------------------------------------------------

  function TokenCall(methodId: U32, args: seq<Byte>): M.TxMsgCall {
    M.TxMsgCall(1, methodId, args, [])
  }

  function Word8(x: U64): seq<Byte> {
    LittleEndian(x, 8)
  }

  function Word4(x: U32): seq<Byte> {
    LittleEndian(x, 4)
  }

  lemma ReadWord8(x: U64)
    ensures |Word8(x)| == 8 && ToU64(Word8(x)) == x
  {
    hide Number, LittleEndian;
    BytePowers();
    WrittenNumber(x, 8);
  }

  lemma ReadWord4(x: U32)
    ensures |Word4(x)| == 4 && ToU32(Word4(x)) == x
  {
    hide Number, LittleEndian;
    BytePowers();
    WrittenNumber(x, 4);
  }

  /** The ids of an instance list as they are written. */
  function IdBytes(ids: seq<U64>): (s: seq<Byte>)
    ensures |s| == 8 * |ids|
  {
    if ids == [] then [] else IdBytes(ids[..|ids| - 1]) + Word8(ids[|ids| - 1])
  }

  lemma {:induction false} IdsRead(ids: seq<U64>, rest: seq<Byte>, n: nat)
    requires n <= |ids|
    ensures IdsAt(IdBytes(ids) + rest, n) == ids[..n]
  {
    hide Word8, ToU64;
    if n > 0 {
      IdsRead(ids, rest, n - 1);
      IdSlice(ids, rest, n - 1);
      ReadWord8(ids[n - 1]);
      assert ids[..n - 1] + [ids[n - 1]] == ids[..n];
    }
  }

  lemma {:induction false} IdSlice(ids: seq<U64>, rest: seq<Byte>, k: nat)
    requires k < |ids|
    ensures (IdBytes(ids) + rest)[8 * k..8 * (k + 1)] == Word8(ids[k])
  {
    hide Word8;
    var n := |ids| - 1;
    ReadWord8(ids[n]);
    var front, last := IdBytes(ids[..n]), Word8(ids[n]);
    assert IdBytes(ids) + rest == front + (last + rest);
    if k == n {
      assert (front + (last + rest))[8 * n..8 * (n + 1)] == last;
    } else {
      IdSlice(ids[..n], last + rest, k);
    }
  }

  lemma CountRead(ids: seq<U64>, rest: seq<Byte>)
    requires |ids| < 0x8000_0000
    ensures DeclaredCount(Word4(|ids|) + (IdBytes(ids) + rest), 8) == |ids|
  {
    hide Word4, ToU32;
    ReadWord4(|ids|);
    assert (Word4(|ids|) + (IdBytes(ids) + rest))[..4] == Word4(|ids|);
  }

  /** A fungible transfer through the token module is described as the native transfer, and as its
      gas-payer form, whatever follows the fields that are read. */
  lemma TransferCalled(o: FeePlanOptions, meta: MetaReader, take: bool, to: Bytes32, holder: Bytes32, tokenId: U64, amount: U64, rest: seq<Byte>)
    ensures CallPart(TokenCall(0, to + holder + Word8(tokenId) + rest), o, take, meta) == Some(Transferred(o, TransferFungible, tokenId, 1, to))
    ensures MessageParts(M.TransferFungible(M.TransferFt(to, tokenId, amount)), o, meta) == Some([Transferred(o, TransferFungible, tokenId, 1, to)])
    ensures MessageParts(M.TransferFungibleGasPayer(M.TransferFtGasPayer(to, holder, tokenId, amount)), o, meta)
         == Some([Transferred(o, TransferFungible, tokenId, 1, to)])
  {
    hide Transferred, ToU64, Word8;
    ReadWord8(tokenId);
    var args := to + holder + Word8(tokenId) + rest;
    assert args[..32] == to && args[64..72] == Word8(tokenId);
  }

  /** An instance transfer through the token module is described as the four native forms are. */
  lemma NftTransferCalled(o: FeePlanOptions, meta: MetaReader, take: bool, to: Bytes32, holder: Bytes32, tokenId: U64, ids: seq<U64>, rest: seq<Byte>)
    requires |ids| < 0x8000_0000
    ensures CallPart(TokenCall(1, NftArgs(to, holder, tokenId, ids, rest)), o, take, meta)
         == Some(Transferred(o, TransferNonFungible, tokenId, |ids|, to))
    ensures MessageParts(M.TransferNonFungibleMulti(M.TransferNftMulti(to, tokenId, ids)), o, meta)
         == Some([Transferred(o, TransferNonFungible, tokenId, |ids|, to)])
    ensures MessageParts(M.TransferNonFungibleMultiGasPayer(M.TransferNftMultiGasPayer(to, holder, tokenId, ids)), o, meta)
         == Some([Transferred(o, TransferNonFungible, tokenId, |ids|, to)])
    ensures |ids| == 1 ==>
      MessageParts(M.TransferNonFungibleSingle(M.TransferNftSingle(to, tokenId, ids[0])), o, meta)
        == Some([Transferred(o, TransferNonFungible, tokenId, 1, to)])
    ensures |ids| == 1 ==>
      MessageParts(M.TransferNonFungibleSingleGasPayer(M.TransferNftSingleGasPayer(to, holder, tokenId, ids[0])), o, meta)
        == Some([Transferred(o, TransferNonFungible, tokenId, 1, to)])
  {
    hide Transferred, TransferNonFungibleArgs, NftArgs;
    NftArgsRead(to, holder, tokenId, ids, rest);
  }

  /** The arguments of an instance transfer. */
  function NftArgs(to: Bytes32, holder: Bytes32, tokenId: U64, ids: seq<U64>, rest: seq<Byte>): seq<Byte>
    requires |ids| < 0x8000_0000
  {
    to + holder + Word8(tokenId) + Word4(|ids|) + IdBytes(ids) + rest
  }

  lemma NftArgsRead(to: Bytes32, holder: Bytes32, tokenId: U64, ids: seq<U64>, rest: seq<Byte>)
    requires |ids| < 0x8000_0000
    ensures TransferNonFungibleArgs(NftArgs(to, holder, tokenId, ids, rest)) == Some((to, tokenId, |ids|))
  {
    hide ToU64, Word8, Word4, DeclaredCount, IdBytes;
    ReadWord8(tokenId);
    ReadWord4(|ids|);
    var args := NftArgs(to, holder, tokenId, ids, rest);
    assert args[..32] == to && args[64..72] == Word8(tokenId) && args[72..] == Word4(|ids|) + (IdBytes(ids) + rest);
    CountRead(ids, rest);
  }

  lemma MintCalled(o: FeePlanOptions, meta: MetaReader, take: bool, to: Bytes32, tokenId: U64, amount: int, rest: seq<Byte>)
    ensures CallPart(TokenCall(3, Word8(tokenId) + to + rest), o, take, meta) == Some(Transferred(o, MintFungible, tokenId, 1, to))
    ensures MessageParts(M.MintFungible(M.MintFt(tokenId, amount, to)), o, meta) == Some([Transferred(o, MintFungible, tokenId, 1, to)])
  {
    hide Transferred, ToU64, Word8;
    ReadWord8(tokenId);
    var args := Word8(tokenId) + to + rest;
    assert args[..8] == Word8(tokenId) && args[8..40] == to;
  }

  lemma BurnCalled(o: FeePlanOptions, meta: MetaReader, take: bool, tokenId: U64, amount: int, payer: Bytes32, rest: seq<Byte>)
    ensures CallPart(TokenCall(4, Word8(tokenId) + rest), o, take, meta) == Some(Burned(o, tokenId))
    ensures MessageParts(M.BurnFungible(M.BurnFt(tokenId, amount)), o, meta) == Some([Burned(o, tokenId)])
    ensures MessageParts(M.BurnFungibleGasPayer(M.BurnFtGasPayer(tokenId, amount, payer)), o, meta) == Some([Burned(o, tokenId)])
  {
    hide Burned, ToU64, Word8;
    ReadWord8(tokenId);
    assert (Word8(tokenId) + rest)[..8] == Word8(tokenId);
  }

  /** The arguments of a burn call. */
  function BurnArgs(tokenId: U64, holder: Bytes32, ids: seq<U64>): seq<Byte>
    requires |ids| < 0x8000_0000
  {
    Word8(tokenId) + holder + Word4(|ids|) + IdBytes(ids)
  }

  lemma BurnArgsRead(tokenId: U64, holder: Bytes32, ids: seq<U64>)
    requires |ids| < 0x8000_0000
    ensures |BurnArgs(tokenId, holder, ids)| == 44 + 8 * |ids|
    ensures BurnNonFungibleArgs(BurnArgs(tokenId, holder, ids)) == Some((tokenId, ids))
  {
    hide ToU64, Word8, Word4, DeclaredCount, IdBytes, IdsAt;
    ReadWord8(tokenId);
    ReadWord4(|ids|);
    var args := BurnArgs(tokenId, holder, ids);
    assert args[..8] == Word8(tokenId) && args[40..] == Word4(|ids|) + (IdBytes(ids) + []) && args[44..] == IdBytes(ids) + [];
    CountRead(ids, []);
    IdsRead(ids, [], |ids|);
    assert ids[..|ids|] == ids;
  }

  /** An NFT burn of one instance through the token module is described as the native burn. */
  lemma NftBurnCalled(o: FeePlanOptions, meta: MetaReader, holder: Bytes32, tokenId: U64, id: U64)
    ensures CallPart(TokenCall(9, BurnArgs(tokenId, holder, [id])), o, true, meta) == BurnPart(o, tokenId, 1, true)
    ensures MessageParts(M.BurnNonFungible(M.BurnNft(tokenId, id)), o, meta) == Listed(BurnPart(o, tokenId, 1, true))
    ensures MessageParts(M.BurnNonFungibleGasPayer(M.BurnNftGasPayer(tokenId, holder, id)), o, meta) == Listed(BurnPart(o, tokenId, 1, true))
  {
    hide BurnPart, BurnArgs, BurnNonFungibleArgs;
    BurnArgsRead(tokenId, holder, [id]);
  }

  // ---- burned instances ---------------------------------------------------------------------

  datatype BurnedInstance = BurnedInstance(tokenId: U64, instanceId: U64)

  function InstancesOf(tokenId: U64, ids: seq<U64>): (r: seq<BurnedInstance>)
    ensures |r| == |ids|
  {
    seq(|ids|, i requires 0 <= i < |ids| => BurnedInstance(tokenId, ids[i]))
  }

  function BurnedByCall(call: M.TxMsgCall): Option<seq<BurnedInstance>> {
    if call.sections != [] || call.moduleId != 1 || call.methodId != 9 then Some([])
    else match BurnNonFungibleArgs(call.args) { case None => None case Some((id, ids)) => Some(InstancesOf(id, ids)) }
  }

  function BurnedByCalls(calls: seq<M.TxMsgCall>): Option<seq<BurnedInstance>> {
    if calls == [] then Some([])
    else
      match BurnedByCalls(calls[..|calls| - 1])
      case None => None
      case Some(front) => match BurnedByCall(calls[|calls| - 1]) { case None => None case Some(last) => Some(front + last) }
  }

  function BurnedOf(body: M.TxBody): Option<seq<BurnedInstance>> {
    match body
    case BurnNonFungible(t) => Some([BurnedInstance(t.tokenId, t.instanceId)])
    case BurnNonFungibleGasPayer(t) => Some([BurnedInstance(t.tokenId, t.instanceId)])
    case Call(c) => BurnedByCall(c)
    case CallMulti(cs) => BurnedByCalls(cs)
    case _ => Some([])
  }

  method BurnedInstances(msg: M.TxMsg) returns (out: Option<seq<BurnedInstance>>)
    ensures out == BurnedOf(msg.body)
  {
    hide BurnedByCall;
    match msg.body
    case BurnNonFungible(t) => out := Some([BurnedInstance(t.tokenId, t.instanceId)]);
    case BurnNonFungibleGasPayer(t) => out := Some([BurnedInstance(t.tokenId, t.instanceId)]);
    case Call(c) => out := CollectBurned(c);
    case CallMulti(cs) => out := CollectBurnedAll(cs);
    case _ => out := Some([]);
  }

  method CollectBurned(call: M.TxMsgCall) returns (out: Option<seq<BurnedInstance>>)
    ensures out == BurnedByCall(call)
  {
    hide BurnNonFungibleArgs;
    if call.sections != [] || call.moduleId != 1 || call.methodId != 9 {
      return Some([]);
    }
    var read := ReadBurnNonFungible(call.args);
    if read.None? {
      return None;
    }
    var ids := read.value.1;
    var burned: seq<BurnedInstance> := [];
    var i: nat := 0;
    while i != |ids|
      invariant i <= |ids| && burned == InstancesOf(read.value.0, ids)[..i]
    {
      burned := burned + [BurnedInstance(read.value.0, ids[i])];
      i := i + 1;
    }
    assert InstancesOf(read.value.0, ids)[..i] == InstancesOf(read.value.0, ids);
    out := Some(burned);
  }

  method CollectBurnedAll(calls: seq<M.TxMsgCall>) returns (out: Option<seq<BurnedInstance>>)
    ensures out == BurnedByCalls(calls)
  {
    hide BurnedByCall;
    var burned: seq<BurnedInstance> := [];
    var i: nat := 0;
    while i != |calls|
      invariant i <= |calls| && BurnedByCalls(calls[..i]) == Some(burned)
    {
      assert calls[..i + 1][..i] == calls[..i];
      var more := CollectBurned(calls[i]);
      if more.None? {
        UnreadBurn(calls, i + 1);
        return None;
      }
      burned := burned + more.value;
      i := i + 1;
    }
    assert calls[..i] == calls;
    out := Some(burned);
  }

  lemma {:induction false} UnreadBurn(calls: seq<M.TxMsgCall>, i: nat)
    requires i <= |calls| && BurnedByCalls(calls[..i]).None?
    ensures BurnedByCalls(calls).None?
    decreases |calls| - i
  {
    hide BurnedByCall;
    if i < |calls| {
      assert calls[..i + 1][..i] == calls[..i];
      UnreadBurn(calls, i + 1);
    } else {
      assert calls[..i] == calls;
    }
  }

  /** The instances a token's burns are priced for. */
  function PricedBurns(parts: seq<NativeFeePart>, tokenId: U64): nat {
    if parts == [] then 0
    else
      PricedBurns(parts[..|parts| - 1], tokenId)
      + (var p := parts[|parts| - 1]; if p.kind == BurnNonFungible && p.params.tokenId == tokenId then p.params.count else 0)
  }

  /** The instances listed for a token. */
  function ListedBurns(burned: seq<BurnedInstance>, tokenId: U64): nat {
    if burned == [] then 0
    else ListedBurns(burned[..|burned| - 1], tokenId) + (if burned[|burned| - 1].tokenId == tokenId then 1 else 0)
  }

  lemma {:induction false} ListedConcat(a: seq<BurnedInstance>, b: seq<BurnedInstance>, tokenId: U64)
    ensures ListedBurns(a + b, tokenId) == ListedBurns(a, tokenId) + ListedBurns(b, tokenId)
  {
    if b == [] {
      assert a + b == a;
    } else {
      var n := |b| - 1;
      ListedConcat(a, b[..n], tokenId);
      assert (a + b)[..|a + b| - 1] == a + b[..n];
    }
  }

  lemma {:induction false} ListedSame(id: U64, ids: seq<U64>, tokenId: U64)
    ensures ListedBurns(InstancesOf(id, ids), tokenId) == if id == tokenId then |ids| else 0
  {
    if ids != [] {
      var n := |ids| - 1;
      ListedSame(id, ids[..n], tokenId);
      assert InstancesOf(id, ids)[..n] == InstancesOf(id, ids[..n]);
    }
  }

  lemma CallBurnsAgree(call: M.TxMsgCall, o: FeePlanOptions, take: bool, meta: MetaReader, tokenId: U64)
    requires CallPart(call, o, take, meta).Some?
    ensures BurnedByCall(call).Some?
    ensures
      var p := CallPart(call, o, take, meta).value;
      ListedBurns(BurnedByCall(call).value, tokenId) == if p.kind == BurnNonFungible && p.params.tokenId == tokenId then p.params.count else 0
  {
    hide TransferFungibleArgs, TransferNonFungibleArgs, MintFungibleArgs, BurnFungibleArgs, BurnNonFungibleArgs, PhantasmaMintFacts,
         Transferred, Burned, MintPart, CreationPart, SeriesPart, NamePart, ListedBurns;
    if call.sections == [] && call.moduleId == 1 && call.methodId == 9 {
      var (id, ids) := BurnNonFungibleArgs(call.args).value;
      ListedSame(id, ids, tokenId);
      FewIds(call.args);
    } else {
      NoBurnKinds(call, o, take, meta);
      NothingListed(tokenId);
    }
  }

  lemma NothingListed(tokenId: U64)
    ensures ListedBurns([], tokenId) == 0
  {
  }

  lemma FewIds(args: seq<Byte>)
    requires BurnNonFungibleArgs(args).Some?
    ensures |BurnNonFungibleArgs(args).value.1| < 0x1_0000_0000
  {
    hide IdsAt, DeclaredCount;
  }

  lemma NoBurnKinds(call: M.TxMsgCall, o: FeePlanOptions, take: bool, meta: MetaReader)
    requires CallPart(call, o, take, meta).Some? && !(call.sections == [] && call.moduleId == 1 && call.methodId == 9)
    ensures CallPart(call, o, take, meta).value.kind != BurnNonFungible
  {
    hide TransferFungibleArgs, TransferNonFungibleArgs, MintFungibleArgs, BurnFungibleArgs, BurnNonFungibleArgs, PhantasmaMintFacts,
         IsNftAddress, TokenInfoCodec;
  }

  lemma {:induction false} CallsBurnsAgree(calls: seq<M.TxMsgCall>, o: FeePlanOptions, meta: MetaReader, tokenId: U64)
    requires CallsParts(calls, o, meta).Some?
    ensures BurnedByCalls(calls).Some?
    ensures ListedBurns(BurnedByCalls(calls).value, tokenId) == PricedBurns(CallsParts(calls, o, meta).value, tokenId)
  {
    hide CallPart, BurnedByCall;
    if calls != [] {
      var n := |calls| - 1;
      CallsBurnsAgree(calls[..n], o, meta, tokenId);
      var front := CallsParts(calls[..n], o, meta).value;
      CallBurnsAgree(calls[n], o, !HasBurn(front), meta, tokenId);
      ListedConcat(BurnedByCalls(calls[..n]).value, BurnedByCall(calls[n]).value, tokenId);
      var p := CallPart(calls[n], o, !HasBurn(front), meta).value;
      assert CallsParts(calls, o, meta) == Some(front + [p]) && (front + [p])[..|front|] == front;
    }
  }

  /** Whatever message is priced, the instances whose assets a caller is asked for are exactly the
      instances it is priced as burning, token by token. */
  lemma BurnsAgree(body: M.TxBody, o: FeePlanOptions, meta: MetaReader, tokenId: U64)
    requires MessageParts(body, o, meta).Some?
    ensures BurnedOf(body).Some?
    ensures ListedBurns(BurnedOf(body).value, tokenId) == PricedBurns(MessageParts(body, o, meta).value, tokenId)
  {
    hide CallPart, CallsParts, BurnedByCall, BurnedByCalls, IsNftAddress;
    match body
    case Call(c) =>
      CallBurnsAgree(c, o, true, meta, tokenId);
      SinglePriced(CallPart(c, o, true, meta).value, tokenId);
    case CallMulti(cs) => CallsBurnsAgree(cs, o, meta, tokenId);
    case BurnNonFungible(t) =>
      ListedSame(t.tokenId, [t.instanceId], tokenId);
      assert InstancesOf(t.tokenId, [t.instanceId]) == [BurnedInstance(t.tokenId, t.instanceId)];
      SinglePriced(BurnPart(o, t.tokenId, 1, true).value, tokenId);
    case BurnNonFungibleGasPayer(t) =>
      ListedSame(t.tokenId, [t.instanceId], tokenId);
      assert InstancesOf(t.tokenId, [t.instanceId]) == [BurnedInstance(t.tokenId, t.instanceId)];
      SinglePriced(BurnPart(o, t.tokenId, 1, true).value, tokenId);
    case PhantasmaRaw(_) =>
    case _ => SinglePriced(MessageParts(body, o, meta).value[0], tokenId);
  }

  lemma SinglePriced(p: NativeFeePart, tokenId: U64)
    ensures PricedBurns([p], tokenId) == if p.kind == BurnNonFungible && p.params.tokenId == tokenId then p.params.count else 0
  {
    assert [p][..0] == [];
  }

  // ---- an exact plan that is not a prediction -----------------------------------------------

  function Nobody(): Bytes32 {
    seq(32, _ => 0)
  }

  /** Four instances of one series, without ROM or RAM. */
  function ExampleEntries(): seq<MintEntry> {
    [(1, ([], [])), (1, ([], [])), (1, ([], [])), (1, ([], []))]
  }

  function ExampleMintArgs(): seq<Byte> {
    Word8(7) + Nobody() + Word4(4) + EncAll(EntryCodec(), ExampleEntries())
  }

  /** A batch that mints four instances and burns one. */
  function ExampleMessage(): M.TxMsg {
    M.TxMsg(0, 1, 0, Nobody(), [], M.CallMulti([TokenCall(27, ExampleMintArgs()), TokenCall(9, BurnArgs(7, Nobody(), [9]))]))
  }

  /** The burned instance holds nothing, and one witness signs. */
  function ExampleOptions(facts: StateFacts): FeePlanOptions {
    FeePlanOptions(facts, true, [], 5000, 512, 4, 1)
  }

  lemma EntryBytes()
    ensures |EntryCodec().enc((1, ([], [])))| == 17 && EntryCodec().fits((1, ([], [])))
  {
    hide Pair, IntXCodec, Counted;
    FieldShapes();
    FieldSizes();
    PairShape(Counted(), Counted());
    PairShape(IntXCodec(), Pair(Counted(), Counted()));
  }

  lemma FieldSizes()
    ensures |IntXCodec().enc(1)| == 9 && |Counted().enc([])| == 4 && InInt256(1)
  {
    hide LittleEndian, Pow;
    BytePowers();
    PowMono(256, 4, 32);
  }

  lemma ExampleMintRead()
    ensures |ExampleMintArgs()| == 112
    ensures PhantasmaMintFacts(ExampleMintArgs()) == Some(MintFacts(7, Nobody(), [0, 0, 0, 0], [0, 0, 0, 0], {1}))
  {
    hide ToU64, ToU32, Word8, Word4, EntryCodec, DecAll, EncAll, Lawful, Faithful, Product;
    EntryBytes();
    EntryLawful();
    LawfulIsFaithful(EntryCodec());
    ReadWord8(7);
    ReadWord4(4);
    FourEntries();
    var entries, bytes := ExampleEntries(), EncAll(EntryCodec(), ExampleEntries());
    AllReadBack(EntryCodec(), entries, []);
    assert bytes + [] == bytes;
    var args := ExampleMintArgs();
    assert args[..8] == Word8(7) && args[8..40] == Nobody() && args[40..44] == Word4(4) && args[44..] == bytes;
    ExampleSeries();
  }

  lemma FourEntries()
    ensures |EncAll(EntryCodec(), ExampleEntries())| == 68
  {
    hide EntryCodec;
    EntryBytes();
    var e: MintEntry := (1, ([], []));
    assert [e][..0] == [] && [e, e][..1] == [e] && [e, e, e][..2] == [e, e] && [e, e, e, e][..3] == [e, e, e];
    assert |EncAll(EntryCodec(), [e])| == 17;
    assert |EncAll(EntryCodec(), [e, e])| == 34;
    assert |EncAll(EntryCodec(), [e, e, e])| == 51;
  }

  lemma ExampleSeries()
    ensures SeriesOf(ExampleEntries()) == {1}
    ensures RomSizes(ExampleEntries()) == [0, 0, 0, 0] && RamSizes(ExampleEntries()) == [0, 0, 0, 0]
  {
    assert ExampleEntries()[0].0 == 1;
  }

  lemma ExampleParts(facts: StateFacts, meta: MetaReader)
    ensures MessageParts(ExampleMessage().body, ExampleOptions(facts), meta)
         == Some(ExampleBatch(facts.(seriesHasMetaId := true), facts.(duplicatedSeries := true, seriesHasMetaId := true)))
  {
    hide ExampleMintArgs, BurnArgs, BurnNonFungibleArgs, PhantasmaMintFacts, MintPart, BurnPart;
    var o := ExampleOptions(facts);
    var calls := [TokenCall(27, ExampleMintArgs()), TokenCall(9, BurnArgs(7, Nobody(), [9]))];
    ExampleMintRead();
    BurnArgsRead(7, Nobody(), [9]);
    ExampleDescribed(facts);
    var mint, burn := MintPart(o, MintFacts(7, Nobody(), [0, 0, 0, 0], [0, 0, 0, 0], {1})), BurnPart(o, 7, 1, true).value;
    TwoCalls(calls, o, meta, mint, burn);
  }

  lemma ExampleDescribed(facts: StateFacts)
    ensures MintPart(ExampleOptions(facts), MintFacts(7, Nobody(), [0, 0, 0, 0], [0, 0, 0, 0], {1}))
         == NativeFeePart(MintPhantasmaNonFungible, ExampleMinted(facts.(seriesHasMetaId := true)))
    ensures BurnPart(ExampleOptions(facts), 7, 1, true)
         == Some(NativeFeePart(BurnNonFungible, ExampleBurned(facts.(duplicatedSeries := true, seriesHasMetaId := true))))
  {
  }

  lemma TwoCalls(calls: seq<M.TxMsgCall>, o: FeePlanOptions, meta: MetaReader, a: NativeFeePart, b: NativeFeePart)
    requires |calls| == 2 && CallPart(calls[0], o, true, meta) == Some(a) && a.kind != BurnNonFungible
    requires CallPart(calls[1], o, true, meta) == Some(b)
    ensures CallsParts(calls, o, meta) == Some([a, b])
  {
    hide CallPart;
    var none: seq<NativeFeePart> := [];
    assert calls[..1][..0] == [] && calls[..1][0] == calls[0];
    assert CallsParts(calls[..1][..0], o, meta) == Some(none) && !HasBurn(none);
    BurnAppears(none, a);
    assert none + [a] == [a];
    assert CallsParts(calls[..1], o, meta) == Some([a]);
    assert |calls| - 1 == 1 && [a] + [b] == [a, b];
  }

  lemma ExampleSize()
    ensures EnvelopeBytes(ExampleMessage(), 1) == 350
  {
    hide EnvelopeBytes, SerializeTx, ExampleMintArgs, BurnArgs, BurnNonFungibleArgs, PhantasmaMintFacts, TxMsgCallCodec;
    ExampleMintRead();
    BurnArgsRead(7, Nobody(), [9]);
    BatchOfTwoSize(ExampleMessage(), TokenCall(27, ExampleMintArgs()), TokenCall(9, BurnArgs(7, Nobody(), [9])));
    OneWitnessSize(ExampleMessage());
  }

  lemma OneWitnessSize(msg: M.TxMsg)
    requires msg.body.CallMulti? && |SerializeTx(msg)| < 0x8000_0000
    ensures EnvelopeBytes(msg, 1) == |SerializeTx(msg)| + 100
  {
    hide SerializeTx;
  }

  lemma BatchOfTwoSize(msg: M.TxMsg, c1: M.TxMsgCall, c2: M.TxMsgCall)
    requires msg.body == M.CallMulti([c1, c2]) && c1.sections == [] && c2.sections == []
    ensures |SerializeTx(msg)| == 58 + |msg.payload| + 4 + (12 + |c1.args|) + (12 + |c2.args|)
  {
    hide TxCodec, HeaderCodec, BodyCodec, EncAll, TxMsgCallCodec;
    TxImageIs(msg, []);
    HeaderSize(OfTx(msg).0);
    CallMultiBodyShape([c1, c2]);
    CallSize(c1);
    CallSize(c2);
    TwoEncoded(TxMsgCallCodec(), c1, c2);
    assert [] + SerializeTx(msg) == SerializeTx(msg);
  }

  lemma TwoEncoded<T>(c: Codec<T>, x: T, y: T)
    ensures |EncAll(c, [x, y])| == |c.enc(x)| + |c.enc(y)|
  {
    assert [x, y][..1] == [x] && [x][..0] == [];
    assert EncAll(c, [x]) == EncAll(c, []) + c.enc(x);
  }

  lemma CallSize(c: M.TxMsgCall)
    requires c.sections == []
    ensures |TxMsgCallCodec().enc(c)| == 12 + |c.args|
  {
    hide TxMsgCallCodec, LittleEndian;
    CallImage(c, []);
    assert [] + TxMsgCallCodec().enc(c) == TxMsgCallCodec().enc(c);
  }

  lemma HeaderSize(h: Header)
    ensures |HeaderCodec().enc(h)| == 58 + |h.1.1.1.1.1|
  {
    hide HeaderCodec, LittleEndian;
    HeaderImage(h, []);
    assert [] + HeaderCodec().enc(h) == HeaderCodec().enc(h);
  }

  /** A batch of a mint and a burn is planned as exact, and yet the same message under facts between the
      two probes is billed 25 units more than planned: a duplicated series costs what the meta-id row of
      the burned instance saves. No reader of metadata makes a difference. */
  lemma ExactMisses(meta: MetaReader)
    ensures
      var quoted := CHEAPEST.(duplicatedSeries := true, romHasMetaId := true);
      var between := CHEAPEST.(duplicatedSeries := true);
      var o := ExampleOptions(quoted);
      var plan := PlanOf(ExampleMessage(), EXAMPLE_CONFIG, o, meta);
      && FactsBelow(CHEAPEST, between) && FactsBelow(between, quoted)
      && plan.Some? && plan.value.exact
      && MessageQuote(ExampleMessage(), EXAMPLE_CONFIG, With(o, between), meta).Some?
      && MessageQuote(ExampleMessage(), EXAMPLE_CONFIG, With(o, between), meta).value.expectedGasBill
         == plan.value.estimate.expectedGasBill + 25
  {
    hide PlanOf, MessageQuote, ExampleMessage, ExampleOptions;
    var quoted := CHEAPEST.(duplicatedSeries := true, romHasMetaId := true);
    var between := CHEAPEST.(duplicatedSeries := true);
    ExamplePlan(quoted, meta);
    ExamplePlan(between, meta);
    ExampleWith(quoted, between);
  }

  /** The plan and the quote of the example, whatever facts are stated. */
  lemma ExamplePlan(facts: StateFacts, meta: MetaReader)
    ensures
      var plan, quote := PlanOf(ExampleMessage(), EXAMPLE_CONFIG, ExampleOptions(facts), meta), MessageQuote(ExampleMessage(), EXAMPLE_CONFIG, ExampleOptions(facts), meta);
      && plan.Some? && plan.value.estimate.expectedGasBill == ExampleBill(facts) && (plan.value.exact <==> ExampleBill(facts) == ExampleBill(CHEAPEST))
      && quote.Some? && quote.value.expectedGasBill == ExampleBill(facts)
  {
    hide ExampleMessage, MessageQuote, MessageParts, Budgeted, ExampleExtra;
    ExampleMessageQuote(facts, meta);
    ExampleMessageQuote(CHEAPEST, meta);
    assert ExampleOptions(facts).(facts := CHEAPEST) == ExampleOptions(CHEAPEST);
  }

  lemma ExampleWith(facts: StateFacts, other: StateFacts)
    ensures With(ExampleOptions(facts), other) == ExampleOptions(other)
  {
  }

  lemma NothingBudgeted(minted: StateFacts, burned: StateFacts)
    ensures !Budgeted(ExampleBatch(minted, burned))
  {
    hide ExampleMinted, ExampleBurned;
  }

  /** The rows the two operations add to those of the four instances. */
  function ExampleExtra(facts: StateFacts): nat {
    Flag(!facts.recipientHoldsToken) + 2 * Flag(!facts.supplyRowExists) + Flag(!facts.tokenBurnedBefore)
  }

  function ExampleBill(facts: StateFacts): U64 {
    13200 + 25 * (ExampleExtra(facts) + Flag(facts.duplicatedSeries) + Flag(!facts.romHasMetaId))
  }

  /** The message is described without a budgeted part and quoted at the bill above. */
  predicate ExampleQuoted(facts: StateFacts, meta: MetaReader) {
    hide ExampleMessage, ExampleOptions, MessageParts, MessageQuote, Budgeted;
    && MessageParts(ExampleMessage().body, ExampleOptions(facts), meta).Some?
    && !Budgeted(MessageParts(ExampleMessage().body, ExampleOptions(facts), meta).value)
    && MessageQuote(ExampleMessage(), EXAMPLE_CONFIG, ExampleOptions(facts), meta)
       == Some(NativeFeeEstimate(ExampleBill(facts), 0, ExampleBill(facts), 16 + ExampleExtra(facts), 3 + Flag(facts.romHasMetaId)))
  }

  lemma ExampleMessageQuote(facts: StateFacts, meta: MetaReader)
    ensures ExampleMessage().body.CallMulti? && ExampleQuoted(facts, meta)
  {
    hide MessageParts, MessageQuote, EnvelopeBytes, Quote, AllFit, ExampleBatch, ExampleMessage, ExampleOptions, Budgeted;
    var minted, burned := facts.(seriesHasMetaId := true), facts.(duplicatedSeries := true, seriesHasMetaId := true);
    ExampleShape(facts);
    ExampleSize();
    ExampleParts(facts, meta);
    NothingBudgeted(minted, burned);
    ExampleBatchQuote(minted, burned, 350);
    QuoteIs(ExampleMessage(), EXAMPLE_CONFIG, ExampleOptions(facts), meta, ExampleBatch(minted, burned), 350);
  }

  /** A plan that states nothing can be exceeded: the same message, of which only the meta id of the
      burned instance turns out to be absent, is billed 25 units more than the default plan. */
  lemma DefaultPlanExceeded(meta: MetaReader)
    ensures
      var o := ExampleOptions(COSTLIEST);
      var plan := PlanOf(ExampleMessage(), EXAMPLE_CONFIG, o, meta);
      var chain := COSTLIEST.(romHasMetaId := false);
      && plan.Some? && FactsBelow(chain, COSTLIEST)
      && MessageQuote(ExampleMessage(), EXAMPLE_CONFIG, With(o, chain), meta).Some?
      && MessageQuote(ExampleMessage(), EXAMPLE_CONFIG, With(o, chain), meta).value.expectedGasBill == plan.value.estimate.expectedGasBill + 25
  {
    hide PlanOf, MessageQuote, ExampleMessage, ExampleOptions;
    ExamplePlan(COSTLIEST, meta);
    ExamplePlan(COSTLIEST.(romHasMetaId := false), meta);
    ExampleWith(COSTLIEST, COSTLIEST.(romHasMetaId := false));
  }

  lemma ExampleShape(facts: StateFacts)
    ensures ExampleMessage().body.CallMulti? && ExampleOptions(facts).witnessCount == 1
  {
    hide ExampleMintArgs, BurnArgs;
  }

  lemma ExampleBatchQuote(minted: StateFacts, burned: StateFacts, envelope: U32)
    requires 0 < envelope < 0x8000_0000
    ensures AllFit(ExampleBatch(minted, burned))
    ensures
      var rows := 16 + ExampleRows(minted, burned);
      var bill := 50 + 25 * (envelope as int + 164 + rows - 3) + (if minted.duplicatedSeries then 25 else 0) - (if burned.romHasMetaId then 25 else 0);
      Quote(ExampleBatch(minted, burned), EXAMPLE_CONFIG, TransactionParams(envelope, 0))
        == Some(NativeFeeEstimate(bill, 0, bill, rows, 3 + Flag(burned.romHasMetaId)))
  {
    hide Settle, Narrow, BatchCharges, AllAccepted, AllFit, ExampleBatch;
    ExampleQuote(minted, burned, envelope);
  }

  lemma QuoteIs(msg: M.TxMsg, config: GasConfig, o: FeePlanOptions, meta: MetaReader, parts: seq<NativeFeePart>, envelope: U32)
    requires MessageParts(msg.body, o, meta) == Some(parts) && EnvelopeBytes(msg, o.witnessCount) == envelope
    ensures AllFit(parts) && MessageQuote(msg, config, o, meta) == Quote(parts, config, TransactionParams(envelope, 0))
  {
    hide MessageParts, EnvelopeBytes, Quote, AllFit;
    PartsFit(msg.body, o, meta);
  }
}
