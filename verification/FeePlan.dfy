/** Plans the gas offer and the escrow ceiling of a message from the message itself: what it does,
    written as the calculator's operations, priced once with the facts as stated and once with every
    fact at its cheaper reading. */
module FeePlan {
  import opened Wrappers
  import opened Words64
  import opened Codecs
  import opened WireFormat
  import opened IntX
  import M = Messages
  import opened MessageCodecs
  import opened Envelope
  import opened Views
  import opened PayloadViews
  import opened TokenCalls
  import opened TokenMetadata
  import opened GasConfigs
  import opened FeeModel
  import opened FeeEstimator
  import opened FeeSettlement
  import opened FeeExactness

  datatype FeePlanOptions = FeePlanOptions(
    facts: StateFacts, infusionsRead: bool, infusions: seq<InfusedAsset>, scriptUnitsAllowance: U64,
    scriptEventBytes: U32, scriptStorageQuanta: U32, witnessCount: U32)

  datatype FeePlan = FeePlan(estimate: NativeFeeEstimate, kinds: seq<NativeFeeKind>, exact: bool, envelopeBytes: U32)

  /** An NFT-derived address: fifteen zero bytes, a marker, a token id and an instance id. */
  predicate IsNftAddress(address: Bytes32) {
    && address[15] == 1 && (forall i :: 0 <= i < 15 ==> address[i] == 0)
    && ToU64(address[16..24]) != 0 && ToU64(address[24..32]) != 0
  }

  // ---- what one call does -------------------------------------------------------------------

  /** The facts every branch passes through; the two that belong to one branch stay at their costlier
      default here. */
  function StateParams(o: FeePlanOptions): NativeFeeParams {
    DEFAULT_PARAMS.(facts := o.facts.(duplicatedSeries := true, seriesHasMetaId := true))
  }

  function ScriptPart(o: FeePlanOptions): NativeFeePart {
    NativeFeePart(Script, DEFAULT_PARAMS.(scriptUnitsAllowance := o.scriptUnitsAllowance, scriptEventBytes := o.scriptEventBytes,
                                          scriptStorageQuanta := o.scriptStorageQuanta))
  }

  /** A movement of a token to a recipient. */
  function Transferred(o: FeePlanOptions, kind: NativeFeeKind, tokenId: U64, count: U32, to: Bytes32): NativeFeePart {
    NativeFeePart(kind, StateParams(o).(tokenId := tokenId, count := count, toIsNftAddress := IsNftAddress(to)))
  }

  function Burned(o: FeePlanOptions, tokenId: U64): NativeFeePart {
    NativeFeePart(BurnFungible, StateParams(o).(tokenId := tokenId))
  }

  /** An NFT mint with the ROM and RAM it carries. */
  function Minted(o: FeePlanOptions, t: M.MintNft): NativeFeePart {
    NativeFeePart(MintNonFungible, StateParams(o).(tokenId := t.tokenId, romBytes := AsCount(|t.rom|), ramBytes := AsCount(|t.ram|),
                                                   toIsNftAddress := IsNftAddress(t.to)))
  }

  /** A burn: the returned assets are demanded where they are taken. */
  function BurnPart(o: FeePlanOptions, tokenId: U64, count: U32, take: bool): Option<NativeFeePart> {
    var p := StateParams(o).(tokenId := tokenId, count := count);
    if !take then Some(NativeFeePart(BurnNonFungible, p))
    else if !o.infusionsRead then None
    else Some(NativeFeePart(BurnNonFungible, p.(infusions := o.infusions)))
  }

  function AsCount(n: nat): U32 {
    n % 0x1_0000_0000
  }

  function MintPart(o: FeePlanOptions, f: MintFacts): NativeFeePart {
    NativeFeePart(MintPhantasmaNonFungible,
      StateParams(o).(facts := o.facts.(seriesHasMetaId := true), tokenId := f.tokenId, toIsNftAddress := IsNftAddress(f.to),
                      count := AsCount(|f.roms|),
                      romBytesPerInstance := if f.roms == [] then None else Some(f.roms),
                      ramBytesPerInstance := if f.rams == [] then None else Some(f.rams),
                      distinctSeriesCount := if f.series == {} then 1 else AsCount(|f.series|)))
  }

  function TokenInfoCodec(): Codec<(int, (U8, (U8, (Bytes32, (SmallString, seq<Byte>)))))> {
    Pair(IntXCodec(), Pair(U8Codec(), Pair(U8Codec(), Pair(Bytes32Codec(), Pair(SmallStringCodec(), Counted())))))
  }

  /** A token creation: the fields of the serialized token info that decide its price. */
  function CreationPart(args: seq<Byte>, meta: MetaReader): Option<NativeFeePart> {
    match TokenInfoCodec().dec(args)
    case None => None
    case Some(((maxSupply, (flags, (decimals, (owner, (symbol, metadata))))), _)) =>
      var p := DEFAULT_PARAMS.(symbolLength := |symbol|, tokenInfoBytes := AsCount(|args|), nonFungible := (flags / 2) % 2 == 1);
      if metadata == [] then Some(NativeFeePart(CreateToken, p))
      else
        match meta(metadata)
        case None => None
        case Some(k) =>
          Some(NativeFeePart(CreateToken, p.(hasPreBurn := k.preBurn, hasInflationSchedule := k.inflationSchedule,
                                             hasStakingOrganisation := k.stakingOrganisation, hasStakingRewardToken := k.stakingRewardToken)))
  }

  function SeriesPart(o: FeePlanOptions, args: seq<Byte>): NativeFeePart {
    NativeFeePart(CreateTokenSeries,
      DEFAULT_PARAMS.(facts := COSTLIEST.(seriesHasMetaId := o.facts.seriesHasMetaId),
                      seriesInfoBytes := if |args| > 8 then AsCount(|args| - 8) else 0))
  }

  function NamePart(args: seq<Byte>): Option<NativeFeePart> {
    if |args| < 33 || |args| < 33 + (args[32] as int) then None
    else Some(NativeFeePart(RegisterName, DEFAULT_PARAMS.(nameLength := args[32])))
  }

  /** The operation a call performs. A call that builds its arguments while it runs takes the script
      budget, and so does everything the model does not price. */
  function CallPart(call: M.TxMsgCall, o: FeePlanOptions, take: bool, meta: MetaReader): Option<NativeFeePart> {
    if call.sections != [] then Some(ScriptPart(o))
    else if call.moduleId == 1 then
      match call.methodId
      case 0 =>
        (match TransferFungibleArgs(call.args)
         case None => None
         case Some((to, id)) => Some(Transferred(o, TransferFungible, id, 1, to)))
      case 1 =>
        (match TransferNonFungibleArgs(call.args)
         case None => None
         case Some((to, id, n)) => Some(Transferred(o, TransferNonFungible, id, n, to)))
      case 2 => CreationPart(call.args, meta)
      case 3 =>
        (match MintFungibleArgs(call.args)
         case None => None
         case Some((to, id)) => Some(Transferred(o, MintFungible, id, 1, to)))
      case 4 =>
        (match BurnFungibleArgs(call.args)
         case None => None
         case Some(id) => Some(Burned(o, id)))
      case 6 => Some(SeriesPart(o, call.args))
      case 9 =>
        (match BurnNonFungibleArgs(call.args)
         case None => None
         case Some((id, ids)) => BurnPart(o, id, AsCount(|ids|), take))
      case 27 =>
        (match PhantasmaMintFacts(call.args)
         case None => None
         case Some(f) => Some(MintPart(o, f)))
      case _ => Some(ScriptPart(o))
    else if call.moduleId == 0 && call.methodId == 1 then NamePart(call.args)
    else Some(ScriptPart(o))
  }

  // ---- what a message does ------------------------------------------------------------------

  predicate HasBurn(parts: seq<NativeFeePart>) {
    exists i :: 0 <= i < |parts| && parts[i].kind == BurnNonFungible
  }

  /** The calls of a batch in order; the first burn takes the whole list of returned assets. */
  function CallsParts(calls: seq<M.TxMsgCall>, o: FeePlanOptions, meta: MetaReader): Option<seq<NativeFeePart>> {
    if calls == [] then Some([])
    else
      match CallsParts(calls[..|calls| - 1], o, meta)
      case None => None
      case Some(parts) =>
        match CallPart(calls[|calls| - 1], o, !HasBurn(parts), meta) { case None => None case Some(p) => Some(parts + [p]) }
  }

  function MessageParts(body: M.TxBody, o: FeePlanOptions, meta: MetaReader): Option<seq<NativeFeePart>> {
    match body
    case TransferFungible(t) => Some([Transferred(o, TransferFungible, t.tokenId, 1, t.to)])
    case TransferFungibleGasPayer(t) => Some([Transferred(o, TransferFungible, t.tokenId, 1, t.to)])
    case TransferNonFungibleSingle(t) => Some([Transferred(o, TransferNonFungible, t.tokenId, 1, t.to)])
    case TransferNonFungibleSingleGasPayer(t) => Some([Transferred(o, TransferNonFungible, t.tokenId, 1, t.to)])
    case TransferNonFungibleMulti(t) => Some([Transferred(o, TransferNonFungible, t.tokenId, AsCount(|t.instanceIds|), t.to)])
    case TransferNonFungibleMultiGasPayer(t) => Some([Transferred(o, TransferNonFungible, t.tokenId, AsCount(|t.instanceIds|), t.to)])
    case MintFungible(t) => Some([Transferred(o, MintFungible, t.tokenId, 1, t.to)])
    case BurnFungible(t) => Some([Burned(o, t.tokenId)])
    case BurnFungibleGasPayer(t) => Some([Burned(o, t.tokenId)])
    case MintNonFungible(t) => Some([Minted(o, t)])
    case BurnNonFungible(t) => Listed(BurnPart(o, t.tokenId, 1, true))
    case BurnNonFungibleGasPayer(t) => Listed(BurnPart(o, t.tokenId, 1, true))
    case Call(c) => Listed(CallPart(c, o, true, meta))
    case CallMulti(cs) => CallsParts(cs, o, meta)
    case Trade(_) => Some([ScriptPart(o)])
    case Phantasma(_) => Some([ScriptPart(o)])
    case PhantasmaRaw(_) => None
  }

  function Listed(part: Option<NativeFeePart>): Option<seq<NativeFeePart>> {
    match part { case None => None case Some(p) => Some([p]) }
  }

  // ---- the two decompositions, step by step -------------------------------------------------

  /** The fields of the token info that decide the price, one after another, then the keys of its
      metadata. */
  method ReadCreateTokenFacts(args: seq<Byte>) returns (params: Option<NativeFeeParams>)
    ensures CreationPart(args, TokenMeta) == if params.Some? then Some(NativeFeePart(CreateToken, params.value)) else None
  {
    hide TokenInfoCodec, TokenMeta, Reads;
    var r := new ReadView(args, false);
    var info := ReadTokenInfo(r);
    InfoOutcome(args, r.bytes, r.fail, info);
    if info.None? {
      return None;
    }
    var (flags, symbolLength, metadata) := info.value;
    var p := DEFAULT_PARAMS.(symbolLength := symbolLength, tokenInfoBytes := AsCount(|args|), nonFungible := (flags / 2) % 2 == 1);
    if |metadata| != 0 {
      var keys := ReadTokenMeta(metadata);
      if keys.None? {
        return None;
      }
      p := p.(hasPreBurn := keys.value.preBurn, hasInflationSchedule := keys.value.inflationSchedule,
              hasStakingOrganisation := keys.value.stakingOrganisation, hasStakingRewardToken := keys.value.stakingRewardToken);
    }
    params := Some(p);
  }

  type InfoFields = (int, (U8, (U8, (Bytes32, (SmallString, seq<Byte>)))))

  function PricedFields(info: InfoFields): (U8, U8, seq<Byte>) {
    (info.1.0, |info.1.1.1.1.0|, info.1.1.1.1.1)
  }

  method ReadTokenInfo(r: ReadView) returns (out: Option<(U8, U8, seq<Byte>)>)
    requires !r.fail && !r.relaxed
    modifies r`bytes, r`fail, r`nonStandard
    ensures exists info :: Reads(TokenInfoCodec(), old(r.bytes), r.bytes, r.fail, info) && out == (if info.Some? then Some(PricedFields(info.value)) else None)
  {
    hide IntXCodec, U8Codec, Bytes32Codec, SmallStringCodec, Counted, Pair, Reads;
    ghost var s0 := r.bytes;
    var maxSupply := ReadAmount(r);
    ghost var s1, f1 := r.bytes, r.fail;
    var flags: Option<U8> := None;
    if maxSupply.Some? { flags := ReadU8(r); }
    ghost var s2, f2 := r.bytes, r.fail;
    var decimals: Option<U8> := None;
    if flags.Some? { decimals := ReadU8(r); }
    ghost var s3, f3 := r.bytes, r.fail;
    var owner: Option<Bytes32> := None;
    if decimals.Some? { owner := ReadBytes32(r); }
    ghost var s4, f4 := r.bytes, r.fail;
    var symbol: Option<SmallString> := None;
    if owner.Some? { symbol := ReadSmallString(r); }
    ghost var s5, f5 := r.bytes, r.fail;
    var metadata: Option<seq<Byte>> := None;
    if symbol.Some? { metadata := ReadCounted(r); }
    if owner.Some? { PairReads(SmallStringCodec(), Counted(), s4, s5, r.bytes, f5, r.fail, symbol, metadata); }
    ghost var p4 := if metadata.Some? then Some((symbol.value, metadata.value)) else None;
    ghost var c4 := Pair(SmallStringCodec(), Counted());
    if decimals.Some? { PairReads(Bytes32Codec(), c4, s3, s4, r.bytes, f4, r.fail, owner, p4); }
    ghost var p3 := if p4.Some? then Some((owner.value, p4.value)) else None;
    ghost var c3 := Pair(Bytes32Codec(), c4);
    if flags.Some? { PairReads(U8Codec(), c3, s2, s3, r.bytes, f3, r.fail, decimals, p3); }
    ghost var p2 := if p3.Some? then Some((decimals.value, p3.value)) else None;
    ghost var c2 := Pair(U8Codec(), c3);
    if maxSupply.Some? { PairReads(U8Codec(), c2, s1, s2, r.bytes, f2, r.fail, flags, p2); }
    ghost var p1 := if p2.Some? then Some((flags.value, p2.value)) else None;
    PairReads(IntXCodec(), Pair(U8Codec(), c2), s0, s1, r.bytes, f1, r.fail, maxSupply, p1);
    ghost var info: Option<InfoFields> := if p1.Some? then Some((maxSupply.value, p1.value)) else None;
    out := if metadata.Some? then Some((flags.value, |symbol.value|, metadata.value)) else None;
    assert Reads(TokenInfoCodec(), s0, r.bytes, r.fail, info);
  }

  lemma InfoOutcome(args: seq<Byte>, after: seq<Byte>, fail: bool, out: Option<(U8, U8, seq<Byte>)>)
    requires exists info :: Reads(TokenInfoCodec(), args, after, fail, info) && out == (if info.Some? then Some(PricedFields(info.value)) else None)
    ensures out == match TokenInfoCodec().dec(args) { case None => None case Some((info, _)) => Some(PricedFields(info)) }
  {
    hide TokenInfoCodec;
  }

  /** The 32-byte address, then the name. */
  method ReadNameLength(args: seq<Byte>) returns (length: Option<U8>)
    ensures NamePart(args) == if length.Some? then Some(NativeFeePart(RegisterName, DEFAULT_PARAMS.(nameLength := length.value))) else None
  {
    hide Number;
    var r := new ReadView(args, false);
    var address := ReadBytes32(r);
    if address.None? {
      return None;
    }
    assert r.bytes == args[32..];
    var name := ReadSmallString(r);
    NameSpan(args[32..]);
    length := if name.Some? then Some(|name.value|) else None;
  }

  lemma NameSpan(s: seq<Byte>)
    ensures SmallStringCodec().dec(s).Some? <==> s != [] && |s| > s[0] as int
    ensures SmallStringCodec().dec(s).Some? ==> |SmallStringCodec().dec(s).value.0| == s[0] as int
  {
    FirstByte(s);
    hide U8Codec;
    if s != [] {
      assert U8Codec().dec(s) == Some((s[0], 1));
      assert s[0] as int <= |s[1..]| ==> |s[1..][..s[0]]| == s[0] as int;
    }
  }

  lemma FirstByte(s: seq<Byte>)
    ensures U8Codec().dec(s) == if s == [] then None else Some((s[0], 1))
  {
    if s != [] {
      assert s[..1] == [s[0]];
      hide LittleEndian, Number;
      OneByte(s[0]);
      BytePowers();
      WrittenNumber(s[0], 1);
    }
  }

  method DescribeCall(call: M.TxMsgCall, o: FeePlanOptions, take: bool) returns (part: Option<NativeFeePart>)
    ensures part == CallPart(call, o, take, TokenMeta)
  {
    hide TransferFungibleArgs, TransferNonFungibleArgs, MintFungibleArgs, BurnFungibleArgs, BurnNonFungibleArgs, PhantasmaMintFacts,
         CreationPart, NamePart, IsNftAddress, TokenMeta;
    if call.sections != [] {
      return Some(ScriptPart(o));
    }
    var params := StateParams(o);
    if call.moduleId == 1 {
      match call.methodId
      case 0 =>
        var read := ReadTransferFungible(call.args);
        if read.None? { return None; }
        part := Some(NativeFeePart(TransferFungible, params.(tokenId := read.value.1, toIsNftAddress := IsNftAddress(read.value.0))));
      case 1 =>
        var read := ReadTransferNonFungible(call.args);
        if read.None? { return None; }
        part := Some(NativeFeePart(TransferNonFungible, params.(tokenId := read.value.1, count := read.value.2,
                                                                toIsNftAddress := IsNftAddress(read.value.0))));
      case 2 =>
        var create := ReadCreateTokenFacts(call.args);
        if create.None? { return None; }
        part := Some(NativeFeePart(CreateToken, create.value));
      case 3 =>
        var read := ReadMintFungible(call.args);
        if read.None? { return None; }
        part := Some(NativeFeePart(MintFungible, params.(tokenId := read.value.1, toIsNftAddress := IsNftAddress(read.value.0))));
      case 4 =>
        var read := ReadBurnFungible(call.args);
        if read.None? { return None; }
        part := Some(NativeFeePart(BurnFungible, params.(tokenId := read.value)));
      case 6 =>
        var series := DEFAULT_PARAMS.(seriesInfoBytes := if |call.args| > 8 then AsCount(|call.args| - 8) else 0,
                                      facts := DEFAULT_PARAMS.facts.(seriesHasMetaId := o.facts.seriesHasMetaId));
        part := Some(NativeFeePart(CreateTokenSeries, series));
      case 9 =>
        var read := ReadBurnNonFungible(call.args);
        if read.None? { return None; }
        params := params.(tokenId := read.value.0, count := AsCount(|read.value.1|));
        if take && !o.infusionsRead { return None; }
        if take { params := params.(infusions := o.infusions); }
        part := Some(NativeFeePart(BurnNonFungible, params));
      case 27 =>
        var read, distinct := ReadPhantasmaMintFacts(call.args);
        if read.None? { return None; }
        part := Some(MintPart(o, read.value));
      case _ => part := Some(ScriptPart(o));
    } else if call.moduleId == 0 && call.methodId == 1 {
      var length := ReadNameLength(call.args);
      if length.None? { return None; }
      part := Some(NativeFeePart(RegisterName, DEFAULT_PARAMS.(nameLength := length.value)));
    } else {
      part := Some(ScriptPart(o));
    }
  }

  method DescribeCalls(calls: seq<M.TxMsgCall>, o: FeePlanOptions) returns (parts: Option<seq<NativeFeePart>>)
    ensures parts == CallsParts(calls, o, TokenMeta)
  {
    hide CallPart, TokenMeta;
    var described: seq<NativeFeePart> := [];
    var takeInfusions := true;
    var i: nat := 0;
    while i != |calls|
      invariant i <= |calls| && CallsParts(calls[..i], o, TokenMeta) == Some(described)
      invariant takeInfusions == !HasBurn(described)
    {
      assert calls[..i + 1][..i] == calls[..i];
      var part := DescribeCall(calls[i], o, takeInfusions);
      if part.None? {
        Undescribed(calls, i + 1, o, TokenMeta);
        return None;
      }
      BurnAppears(described, part.value);
      described := described + [part.value];
      if part.value.kind == BurnNonFungible {
        takeInfusions := false;
      }
      i := i + 1;
    }
    assert calls[..i] == calls;
    parts := Some(described);
  }

  lemma BurnAppears(parts: seq<NativeFeePart>, p: NativeFeePart)
    ensures HasBurn(parts + [p]) <==> HasBurn(parts) || p.kind == BurnNonFungible
  {
    assert (parts + [p])[|parts|] == p;
    assert forall i :: 0 <= i < |parts| ==> (parts + [p])[i] == parts[i];
  }

  lemma {:induction false} Undescribed(calls: seq<M.TxMsgCall>, i: nat, o: FeePlanOptions, meta: MetaReader)
    requires i <= |calls| && CallsParts(calls[..i], o, meta).None?
    ensures CallsParts(calls, o, meta).None?
    decreases |calls| - i
  {
    hide CallPart;
    if i < |calls| {
      assert calls[..i + 1][..i] == calls[..i];
      Undescribed(calls, i + 1, o, meta);
    } else {
      assert calls[..i] == calls;
    }
  }

  method Describe(msg: M.TxMsg, o: FeePlanOptions) returns (parts: Option<seq<NativeFeePart>>)
    ensures parts == MessageParts(msg.body, o, TokenMeta)
  {
    hide CallPart, CallsParts, IsNftAddress, TokenMeta;
    var params := StateParams(o);
    match msg.body
    case TransferFungible(t) =>
      parts := Some([NativeFeePart(TransferFungible, params.(tokenId := t.tokenId, toIsNftAddress := IsNftAddress(t.to)))]);
    case TransferFungibleGasPayer(t) =>
      parts := Some([NativeFeePart(TransferFungible, params.(tokenId := t.tokenId, toIsNftAddress := IsNftAddress(t.to)))]);
    case TransferNonFungibleSingle(t) =>
      parts := Some([NativeFeePart(TransferNonFungible, params.(tokenId := t.tokenId, count := 1, toIsNftAddress := IsNftAddress(t.to)))]);
    case TransferNonFungibleSingleGasPayer(t) =>
      parts := Some([NativeFeePart(TransferNonFungible, params.(tokenId := t.tokenId, count := 1, toIsNftAddress := IsNftAddress(t.to)))]);
    case TransferNonFungibleMulti(t) =>
      params := params.(tokenId := t.tokenId, count := AsCount(|t.instanceIds|), toIsNftAddress := IsNftAddress(t.to));
      parts := Some([NativeFeePart(TransferNonFungible, params)]);
    case TransferNonFungibleMultiGasPayer(t) =>
      params := params.(tokenId := t.tokenId, count := AsCount(|t.instanceIds|), toIsNftAddress := IsNftAddress(t.to));
      parts := Some([NativeFeePart(TransferNonFungible, params)]);
    case MintFungible(t) =>
      parts := Some([NativeFeePart(MintFungible, params.(tokenId := t.tokenId, toIsNftAddress := IsNftAddress(t.to)))]);
    case BurnFungible(t) => parts := Some([NativeFeePart(BurnFungible, params.(tokenId := t.tokenId))]);
    case BurnFungibleGasPayer(t) => parts := Some([NativeFeePart(BurnFungible, params.(tokenId := t.tokenId))]);
    case MintNonFungible(t) =>
      params := params.(tokenId := t.tokenId, romBytes := AsCount(|t.rom|), ramBytes := AsCount(|t.ram|));
      parts := Some([NativeFeePart(MintNonFungible, params.(toIsNftAddress := IsNftAddress(t.to)))]);
    case BurnNonFungible(t) =>
      if !o.infusionsRead { return None; }
      parts := Some([NativeFeePart(BurnNonFungible, params.(tokenId := t.tokenId, count := 1, infusions := o.infusions))]);
    case BurnNonFungibleGasPayer(t) =>
      if !o.infusionsRead { return None; }
      parts := Some([NativeFeePart(BurnNonFungible, params.(tokenId := t.tokenId, count := 1, infusions := o.infusions))]);
    case Call(c) =>
      var part := DescribeCall(c, o, true);
      parts := if part.Some? then Some([part.value]) else None;
    case CallMulti(cs) => parts := DescribeCalls(cs, o);
    case Trade(_) => parts := Some([ScriptPart(o)]);
    case Phantasma(_) => parts := Some([ScriptPart(o)]);
    case PhantasmaRaw(_) => parts := None;
  }
}
