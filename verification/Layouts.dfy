/** The bytes of every payload, of the message header and of the envelope, in order. */
module Layouts {
  import opened Wrappers
  import opened Words64
  import opened Codecs
  import opened WireFormat
  import opened IntX
  import opened Messages
  import opened MessageCodecs
  import opened BodyCodecs
  import opened Envelope
  import opened Views
  import opened CallCodec
  import opened TxViews

  // ---- fields -------------------------------------------------------------------------------

  lemma Key(v: Bytes32)
    ensures Bytes32Codec().enc(v) == v
  {
  }

  lemma Signature(v: Bytes64)
    ensures Bytes64Codec().enc(v) == v
  {
  }

  lemma Tag(v: U8)
    ensures U8Codec().enc(v) == [v]
  {
    hide LittleEndian;
    OneByte(v);
    U8Image(v);
  }

  lemma Half(v: U32)
    ensures U32Codec().enc(v) == LittleEndian(v, 4)
  {
    hide LittleEndian;
  }

  lemma Whole(v: U64)
    ensures U64Codec().enc(v) == LittleEndian(v, 8)
  {
    hide LittleEndian;
  }

  lemma Moment(v: I64)
    ensures I64Codec().enc(v) == LittleEndian(FromI64(v), 8)
  {
    hide LittleEndian;
  }

  lemma Note(s: SmallString)
    ensures SmallStringCodec().enc(s) == [|s|] + s
  {
    hide LittleEndian;
    SmallStringImage(s);
    OneByte(|s|);
  }

  lemma Blob(v: seq<Byte>)
    ensures Counted().enc(v) == LittleEndian(|v|, 4) + v
  {
    hide LittleEndian;
  }

  lemma Amount(v: int)
    ensures IntXCodec().enc(v) == WriteValue(v)
  {
    hide WriteValue;
  }

  /** Words of eight bytes one after another. */
  function IdsBytes(ids: seq<U64>): seq<Byte> {
    if ids == [] then [] else IdsBytes(ids[..|ids| - 1]) + LittleEndian(ids[|ids| - 1], 8)
  }

  lemma {:induction false} IdsAll(ids: seq<U64>)
    ensures EncAll(U64Codec(), ids) == IdsBytes(ids)
  {
    hide U64Codec, LittleEndian;
    if ids != [] {
      IdsAll(ids[..|ids| - 1]);
      Whole(ids[|ids| - 1]);
    }
  }

  lemma Ids(ids: seq<U64>)
    ensures InstanceIdsCodec().enc(ids) == LittleEndian(|ids|, 4) + IdsBytes(ids)
  {
    hide LittleEndian, EncAll, IdsBytes;
    IdsAll(ids);
  }

  lemma Two<A, B>(a: Codec<A>, b: Codec<B>, x: A, y: B)
    ensures Pair(a, b).enc((x, y)) == a.enc(x) + b.enc(y)
  {
  }

  // ---- payloads -----------------------------------------------------------------------------

  lemma TransferFtLayout(x: TransferFt)
    ensures TransferFtCodec().enc(x) == x.to + (LittleEndian(x.tokenId, 8) + (LittleEndian(x.amount, 8)))
  {
    hide LittleEndian, WriteValue, EncAll, Pair, Struct, Bytes32Codec, U32Codec, U64Codec, SmallStringCodec, Counted, IntXCodec, InstanceIdsCodec;
    Key(x.to);
    Whole(x.tokenId);
    Whole(x.amount);
    Two(Bytes32Codec(), Pair(U64Codec(), U64Codec()), x.to, (x.tokenId, x.amount));
    Two(U64Codec(), U64Codec(), x.tokenId, x.amount);
    StructImage(TransferFtFields(), ToTransferFt, OfTransferFt, x);
  }

  lemma TransferFtGasPayerLayout(x: TransferFtGasPayer)
    ensures TransferFtGasPayerCodec().enc(x) == x.to + (x.payer + (LittleEndian(x.tokenId, 8) + (LittleEndian(x.amount, 8))))
  {
    hide LittleEndian, WriteValue, EncAll, Pair, Struct, Bytes32Codec, U32Codec, U64Codec, SmallStringCodec, Counted, IntXCodec, InstanceIdsCodec;
    Key(x.to);
    Key(x.payer);
    Whole(x.tokenId);
    Whole(x.amount);
    Two(Bytes32Codec(), Pair(Bytes32Codec(), Pair(U64Codec(), U64Codec())), x.to, (x.payer, (x.tokenId, x.amount)));
    Two(Bytes32Codec(), Pair(U64Codec(), U64Codec()), x.payer, (x.tokenId, x.amount));
    Two(U64Codec(), U64Codec(), x.tokenId, x.amount);
    StructImage(TransferFtGasPayerFields(), ToTransferFtGasPayer, OfTransferFtGasPayer, x);
  }

  lemma TransferNftSingleLayout(x: TransferNftSingle)
    ensures TransferNftSingleCodec().enc(x) == x.to + (LittleEndian(x.tokenId, 8) + (LittleEndian(x.instanceId, 8)))
  {
    hide LittleEndian, WriteValue, EncAll, Pair, Struct, Bytes32Codec, U32Codec, U64Codec, SmallStringCodec, Counted, IntXCodec, InstanceIdsCodec;
    Key(x.to);
    Whole(x.tokenId);
    Whole(x.instanceId);
    Two(Bytes32Codec(), Pair(U64Codec(), U64Codec()), x.to, (x.tokenId, x.instanceId));
    Two(U64Codec(), U64Codec(), x.tokenId, x.instanceId);
    StructImage(TransferNftSingleFields(), ToTransferNftSingle, OfTransferNftSingle, x);
  }

  lemma TransferNftSingleGasPayerLayout(x: TransferNftSingleGasPayer)
    ensures TransferNftSingleGasPayerCodec().enc(x) == x.to + (x.payer + (LittleEndian(x.tokenId, 8) + (LittleEndian(x.instanceId, 8))))
  {
    hide LittleEndian, WriteValue, EncAll, Pair, Struct, Bytes32Codec, U32Codec, U64Codec, SmallStringCodec, Counted, IntXCodec, InstanceIdsCodec;
    Key(x.to);
    Key(x.payer);
    Whole(x.tokenId);
    Whole(x.instanceId);
    Two(Bytes32Codec(), Pair(Bytes32Codec(), Pair(U64Codec(), U64Codec())), x.to, (x.payer, (x.tokenId, x.instanceId)));
    Two(Bytes32Codec(), Pair(U64Codec(), U64Codec()), x.payer, (x.tokenId, x.instanceId));
    Two(U64Codec(), U64Codec(), x.tokenId, x.instanceId);
    StructImage(TransferNftSingleGasPayerFields(), ToTransferNftSingleGasPayer, OfTransferNftSingleGasPayer, x);
  }

  lemma TransferNftMultiLayout(x: TransferNftMulti)
    ensures TransferNftMultiCodec().enc(x) == x.to + (LittleEndian(x.tokenId, 8) + (LittleEndian(|x.instanceIds|, 4) + IdsBytes(x.instanceIds)))
  {
    hide LittleEndian, WriteValue, EncAll, Pair, Struct, Bytes32Codec, U32Codec, U64Codec, SmallStringCodec, Counted, IntXCodec, InstanceIdsCodec;
    Key(x.to);
    Whole(x.tokenId);
    Ids(x.instanceIds);
    Two(Bytes32Codec(), Pair(U64Codec(), InstanceIdsCodec()), x.to, (x.tokenId, x.instanceIds));
    Two(U64Codec(), InstanceIdsCodec(), x.tokenId, x.instanceIds);
    StructImage(TransferNftMultiFields(), ToTransferNftMulti, OfTransferNftMulti, x);
  }

  lemma TransferNftMultiGasPayerLayout(x: TransferNftMultiGasPayer)
    ensures TransferNftMultiGasPayerCodec().enc(x) == x.to + (x.payer + (LittleEndian(x.tokenId, 8) + (LittleEndian(|x.instanceIds|, 4) + IdsBytes(x.instanceIds))))
  {
    hide LittleEndian, WriteValue, EncAll, Pair, Struct, Bytes32Codec, U32Codec, U64Codec, SmallStringCodec, Counted, IntXCodec, InstanceIdsCodec;
    Key(x.to);
    Key(x.payer);
    Whole(x.tokenId);
    Ids(x.instanceIds);
    Two(Bytes32Codec(), Pair(Bytes32Codec(), Pair(U64Codec(), InstanceIdsCodec())), x.to, (x.payer, (x.tokenId, x.instanceIds)));
    Two(Bytes32Codec(), Pair(U64Codec(), InstanceIdsCodec()), x.payer, (x.tokenId, x.instanceIds));
    Two(U64Codec(), InstanceIdsCodec(), x.tokenId, x.instanceIds);
    StructImage(TransferNftMultiGasPayerFields(), ToTransferNftMultiGasPayer, OfTransferNftMultiGasPayer, x);
  }

  lemma MintFtLayout(x: MintFt)
    ensures MintFtCodec().enc(x) == LittleEndian(x.tokenId, 8) + (x.to + (WriteValue(x.amount)))
  {
    hide LittleEndian, WriteValue, EncAll, Pair, Struct, Bytes32Codec, U32Codec, U64Codec, SmallStringCodec, Counted, IntXCodec, InstanceIdsCodec;
    Whole(x.tokenId);
    Key(x.to);
    Amount(x.amount);
    Two(U64Codec(), Pair(Bytes32Codec(), IntXCodec()), x.tokenId, (x.to, x.amount));
    Two(Bytes32Codec(), IntXCodec(), x.to, x.amount);
    StructImage(MintFtFields(), ToMintFt, OfMintFt, x);
  }

  lemma BurnFtLayout(x: BurnFt)
    ensures BurnFtCodec().enc(x) == LittleEndian(x.tokenId, 8) + (WriteValue(x.amount))
  {
    hide LittleEndian, WriteValue, EncAll, Pair, Struct, Bytes32Codec, U32Codec, U64Codec, SmallStringCodec, Counted, IntXCodec, InstanceIdsCodec;
    Whole(x.tokenId);
    Amount(x.amount);
    Two(U64Codec(), IntXCodec(), x.tokenId, x.amount);
    StructImage(BurnFtFields(), ToBurnFt, OfBurnFt, x);
  }

  lemma BurnFtGasPayerLayout(x: BurnFtGasPayer)
    ensures BurnFtGasPayerCodec().enc(x) == LittleEndian(x.tokenId, 8) + (x.payer + (WriteValue(x.amount)))
  {
    hide LittleEndian, WriteValue, EncAll, Pair, Struct, Bytes32Codec, U32Codec, U64Codec, SmallStringCodec, Counted, IntXCodec, InstanceIdsCodec;
    Whole(x.tokenId);
    Key(x.payer);
    Amount(x.amount);
    Two(U64Codec(), Pair(Bytes32Codec(), IntXCodec()), x.tokenId, (x.payer, x.amount));
    Two(Bytes32Codec(), IntXCodec(), x.payer, x.amount);
    StructImage(BurnFtGasPayerFields(), ToBurnFtGasPayer, OfBurnFtGasPayer, x);
  }

  lemma MintNftLayout(x: MintNft)
    ensures MintNftCodec().enc(x) == LittleEndian(x.tokenId, 8) + (x.to + (LittleEndian(x.seriesId, 4) + ((LittleEndian(|x.rom|, 4) + x.rom) + (LittleEndian(|x.ram|, 4) + x.ram))))
  {
    hide LittleEndian, WriteValue, EncAll, Pair, Struct, Bytes32Codec, U32Codec, U64Codec, SmallStringCodec, Counted, IntXCodec, InstanceIdsCodec;
    Whole(x.tokenId);
    Key(x.to);
    Half(x.seriesId);
    Blob(x.rom);
    Blob(x.ram);
    Two(U64Codec(), Pair(Bytes32Codec(), Pair(U32Codec(), Pair(Counted(), Counted()))), x.tokenId, (x.to, (x.seriesId, (x.rom, x.ram))));
    Two(Bytes32Codec(), Pair(U32Codec(), Pair(Counted(), Counted())), x.to, (x.seriesId, (x.rom, x.ram)));
    Two(U32Codec(), Pair(Counted(), Counted()), x.seriesId, (x.rom, x.ram));
    Two(Counted(), Counted(), x.rom, x.ram);
    StructImage(MintNftFields(), ToMintNft, OfMintNft, x);
  }

  lemma BurnNftLayout(x: BurnNft)
    ensures BurnNftCodec().enc(x) == LittleEndian(x.tokenId, 8) + (LittleEndian(x.instanceId, 8))
  {
    hide LittleEndian, WriteValue, EncAll, Pair, Struct, Bytes32Codec, U32Codec, U64Codec, SmallStringCodec, Counted, IntXCodec, InstanceIdsCodec;
    Whole(x.tokenId);
    Whole(x.instanceId);
    Two(U64Codec(), U64Codec(), x.tokenId, x.instanceId);
    StructImage(BurnNftFields(), ToBurnNft, OfBurnNft, x);
  }

  lemma BurnNftGasPayerLayout(x: BurnNftGasPayer)
    ensures BurnNftGasPayerCodec().enc(x) == LittleEndian(x.tokenId, 8) + (x.payer + (LittleEndian(x.instanceId, 8)))
  {
    hide LittleEndian, WriteValue, EncAll, Pair, Struct, Bytes32Codec, U32Codec, U64Codec, SmallStringCodec, Counted, IntXCodec, InstanceIdsCodec;
    Whole(x.tokenId);
    Key(x.payer);
    Whole(x.instanceId);
    Two(U64Codec(), Pair(Bytes32Codec(), U64Codec()), x.tokenId, (x.payer, x.instanceId));
    Two(Bytes32Codec(), U64Codec(), x.payer, x.instanceId);
    StructImage(BurnNftGasPayerFields(), ToBurnNftGasPayer, OfBurnNftGasPayer, x);
  }

  lemma PhantasmaMsgLayout(x: PhantasmaMsg)
    ensures PhantasmaMsgCodec().enc(x) == ([|x.nexus|] + x.nexus) + (([|x.chain|] + x.chain) + (LittleEndian(|x.script|, 4) + x.script))
  {
    hide LittleEndian, WriteValue, EncAll, Pair, Struct, Bytes32Codec, U32Codec, U64Codec, SmallStringCodec, Counted, IntXCodec, InstanceIdsCodec;
    Note(x.nexus);
    Note(x.chain);
    Blob(x.script);
    Two(SmallStringCodec(), Pair(SmallStringCodec(), Counted()), x.nexus, (x.chain, x.script));
    Two(SmallStringCodec(), Counted(), x.chain, x.script);
    StructImage(PhantasmaMsgFields(), ToPhantasmaMsg, OfPhantasmaMsg, x);
  }

  // ---- calls, batches and trades ------------------------------------------------------------

  /** One argument section: an offset below zero, or a length and as many bytes. */
  function SectionBytes(x: MsgCallArgs): seq<Byte> {
    if x.registerOffset < 0 then LittleEndian(0x1_0000_0000 + x.registerOffset, 4) else LittleEndian(|x.args|, 4) + x.args
  }

  function SectionsBytes(xs: seq<MsgCallArgs>): seq<Byte> {
    if xs == [] then [] else SectionsBytes(xs[..|xs| - 1]) + SectionBytes(xs[|xs| - 1])
  }

  /** Module, method, and either the arguments or the negated count of the sections and the sections. */
  function CallBytes(c: TxMsgCall): seq<Byte> {
    LittleEndian(c.moduleId, 4) + LittleEndian(c.methodId, 4) +
      if c.sections == [] then LittleEndian(|c.args|, 4) + c.args
      else LittleEndian((0x1_0000_0000 - |c.sections|) % 0x1_0000_0000, 4) + SectionsBytes(c.sections)
  }

  lemma {:induction false} SectionsLayout(xs: seq<MsgCallArgs>)
    ensures EncAll(SectionCodec(), xs) == SectionsBytes(xs)
  {
    hide LittleEndian;
    if xs != [] { SectionsLayout(xs[..|xs| - 1]); }
  }

  lemma CallLayout(c: TxMsgCall)
    requires |c.sections| < 0x8000_0000
    ensures TxMsgCallCodec().enc(c) == CallBytes(c)
  {
    hide TxMsgCallCodec, SectionCodec, U32Codec, LittleEndian, EncAll, SectionsBytes;
    CallImage(c, []);
    SectionsLayout(c.sections);
    Half(c.moduleId);
    Half(c.methodId);
    assert [] + TxMsgCallCodec().enc(c) == TxMsgCallCodec().enc(c);
    Appended(LittleEndian(c.moduleId, 4) + LittleEndian(c.methodId, 4), LittleEndian(|c.args|, 4), c.args);
    Appended(LittleEndian(c.moduleId, 4) + LittleEndian(c.methodId, 4), LittleEndian(NegatedCount(|c.sections|), 4), SectionsBytes(c.sections));
  }

  function TransferFtGasPayerList(xs: seq<TransferFtGasPayer>): seq<Byte> {
    if xs == [] then []
    else
      var x := xs[|xs| - 1];
      TransferFtGasPayerList(xs[..|xs| - 1]) + (x.to + (x.payer + (LittleEndian(x.tokenId, 8) + (LittleEndian(x.amount, 8)))))
  }

  lemma {:induction false} TransferFtGasPayerListLayout(xs: seq<TransferFtGasPayer>)
    ensures EncAll(TransferFtGasPayerCodec(), xs) == TransferFtGasPayerList(xs)
  {
    hide TransferFtGasPayerCodec, LittleEndian, WriteValue;
    if xs != [] {
      TransferFtGasPayerListLayout(xs[..|xs| - 1]);
      TransferFtGasPayerLayout(xs[|xs| - 1]);
    }
  }

  function TransferNftSingleGasPayerList(xs: seq<TransferNftSingleGasPayer>): seq<Byte> {
    if xs == [] then []
    else
      var x := xs[|xs| - 1];
      TransferNftSingleGasPayerList(xs[..|xs| - 1]) + (x.to + (x.payer + (LittleEndian(x.tokenId, 8) + (LittleEndian(x.instanceId, 8)))))
  }

  lemma {:induction false} TransferNftSingleGasPayerListLayout(xs: seq<TransferNftSingleGasPayer>)
    ensures EncAll(TransferNftSingleGasPayerCodec(), xs) == TransferNftSingleGasPayerList(xs)
  {
    hide TransferNftSingleGasPayerCodec, LittleEndian, WriteValue;
    if xs != [] {
      TransferNftSingleGasPayerListLayout(xs[..|xs| - 1]);
      TransferNftSingleGasPayerLayout(xs[|xs| - 1]);
    }
  }

  function MintFtList(xs: seq<MintFt>): seq<Byte> {
    if xs == [] then []
    else
      var x := xs[|xs| - 1];
      MintFtList(xs[..|xs| - 1]) + (LittleEndian(x.tokenId, 8) + (x.to + (WriteValue(x.amount))))
  }

  lemma {:induction false} MintFtListLayout(xs: seq<MintFt>)
    ensures EncAll(MintFtCodec(), xs) == MintFtList(xs)
  {
    hide MintFtCodec, LittleEndian, WriteValue;
    if xs != [] {
      MintFtListLayout(xs[..|xs| - 1]);
      MintFtLayout(xs[|xs| - 1]);
    }
  }

  function BurnFtGasPayerList(xs: seq<BurnFtGasPayer>): seq<Byte> {
    if xs == [] then []
    else
      var x := xs[|xs| - 1];
      BurnFtGasPayerList(xs[..|xs| - 1]) + (LittleEndian(x.tokenId, 8) + (x.payer + (WriteValue(x.amount))))
  }

  lemma {:induction false} BurnFtGasPayerListLayout(xs: seq<BurnFtGasPayer>)
    ensures EncAll(BurnFtGasPayerCodec(), xs) == BurnFtGasPayerList(xs)
  {
    hide BurnFtGasPayerCodec, LittleEndian, WriteValue;
    if xs != [] {
      BurnFtGasPayerListLayout(xs[..|xs| - 1]);
      BurnFtGasPayerLayout(xs[|xs| - 1]);
    }
  }

  function MintNftList(xs: seq<MintNft>): seq<Byte> {
    if xs == [] then []
    else
      var x := xs[|xs| - 1];
      MintNftList(xs[..|xs| - 1]) + (LittleEndian(x.tokenId, 8) + (x.to + (LittleEndian(x.seriesId, 4) + ((LittleEndian(|x.rom|, 4) + x.rom) + (LittleEndian(|x.ram|, 4) + x.ram)))))
  }

  lemma {:induction false} MintNftListLayout(xs: seq<MintNft>)
    ensures EncAll(MintNftCodec(), xs) == MintNftList(xs)
  {
    hide MintNftCodec, LittleEndian, WriteValue;
    if xs != [] {
      MintNftListLayout(xs[..|xs| - 1]);
      MintNftLayout(xs[|xs| - 1]);
    }
  }

  function BurnNftGasPayerList(xs: seq<BurnNftGasPayer>): seq<Byte> {
    if xs == [] then []
    else
      var x := xs[|xs| - 1];
      BurnNftGasPayerList(xs[..|xs| - 1]) + (LittleEndian(x.tokenId, 8) + (x.payer + (LittleEndian(x.instanceId, 8))))
  }

  lemma {:induction false} BurnNftGasPayerListLayout(xs: seq<BurnNftGasPayer>)
    ensures EncAll(BurnNftGasPayerCodec(), xs) == BurnNftGasPayerList(xs)
  {
    hide BurnNftGasPayerCodec, LittleEndian, WriteValue;
    if xs != [] {
      BurnNftGasPayerListLayout(xs[..|xs| - 1]);
      BurnNftGasPayerLayout(xs[|xs| - 1]);
    }
  }

  function CallsList(xs: seq<TxMsgCall>): seq<Byte> {
    if xs == [] then [] else CallsList(xs[..|xs| - 1]) + CallBytes(xs[|xs| - 1])
  }

  lemma {:induction false} CallsListLayout(xs: seq<TxMsgCall>)
    requires forall i :: 0 <= i < |xs| ==> |xs[i].sections| < 0x8000_0000
    ensures EncAll(TxMsgCallCodec(), xs) == CallsList(xs)
  {
    hide TxMsgCallCodec, CallBytes;
    if xs != [] {
      CallsListLayout(xs[..|xs| - 1]);
      CallLayout(xs[|xs| - 1]);
    }
  }

  lemma CallMultiLayout(xs: seq<TxMsgCall>)
    requires forall i :: 0 <= i < |xs| ==> |xs[i].sections| < 0x8000_0000
    ensures CallsCodec().enc(xs) == LittleEndian(|xs|, 4) + CallsList(xs)
  {
    hide TxMsgCallCodec, LittleEndian, EncAll, CallsList;
    CallsListLayout(xs);
  }

  /** Six counted lists: fungible and instance transfers, mints, burns, instance mints and instance burns. */
  function TradeBytes(t: TradeMsg): seq<Byte> {
    (LittleEndian(|t.transferF|, 4) + TransferFtGasPayerList(t.transferF)) + ((LittleEndian(|t.transferN|, 4) + TransferNftSingleGasPayerList(t.transferN))
      + ((LittleEndian(|t.mintF|, 4) + MintFtList(t.mintF)) + ((LittleEndian(|t.burnF|, 4) + BurnFtGasPayerList(t.burnF))
      + ((LittleEndian(|t.mintN|, 4) + MintNftList(t.mintN)) + (LittleEndian(|t.burnN|, 4) + BurnNftGasPayerList(t.burnN))))))
  }

  lemma ListImage<T>(c: Codec<T>, elementSize: nat, xs: seq<T>)
    ensures ArrayOf(c, elementSize).enc(xs) == LittleEndian(|xs|, 4) + EncAll(c, xs)
  {
    hide LittleEndian, EncAll;
  }

  lemma TradeLayout(t: TradeMsg)
    ensures TradeCodec().enc(t) == TradeBytes(t)
  {
    hide ArrayOf, EncAll, LittleEndian, Pair, Struct, TransferFtGasPayerCodec, TransferNftSingleGasPayerCodec, MintFtCodec, BurnFtGasPayerCodec,
         MintNftCodec, BurnNftGasPayerCodec, TransferFtGasPayerList, TransferNftSingleGasPayerList, MintFtList, BurnFtGasPayerList, MintNftList,
         BurnNftGasPayerList;
    TransferFtGasPayerListLayout(t.transferF);
    TransferNftSingleGasPayerListLayout(t.transferN);
    MintFtListLayout(t.mintF);
    BurnFtGasPayerListLayout(t.burnF);
    MintNftListLayout(t.mintN);
    BurnNftGasPayerListLayout(t.burnN);
    var a, b := ArrayOf(TransferFtGasPayerCodec(), MIN_TRANSFER_F), ArrayOf(TransferNftSingleGasPayerCodec(), MIN_TRANSFER_N);
    var c, d := ArrayOf(MintFtCodec(), MIN_MINT_F), ArrayOf(BurnFtGasPayerCodec(), MIN_BURN_F);
    var e, f := ArrayOf(MintNftCodec(), MIN_MINT_N), ArrayOf(BurnNftGasPayerCodec(), MIN_BURN_N);
    ListImage(TransferFtGasPayerCodec(), MIN_TRANSFER_F, t.transferF);
    ListImage(TransferNftSingleGasPayerCodec(), MIN_TRANSFER_N, t.transferN);
    ListImage(MintFtCodec(), MIN_MINT_F, t.mintF);
    ListImage(BurnFtGasPayerCodec(), MIN_BURN_F, t.burnF);
    ListImage(MintNftCodec(), MIN_MINT_N, t.mintN);
    ListImage(BurnNftGasPayerCodec(), MIN_BURN_N, t.burnN);
    Two(e, f, t.mintN, t.burnN);
    Two(d, Pair(e, f), t.burnF, (t.mintN, t.burnN));
    Two(c, Pair(d, Pair(e, f)), t.mintF, (t.burnF, (t.mintN, t.burnN)));
    Two(b, TradeTail(), t.transferN, (t.mintF, (t.burnF, (t.mintN, t.burnN))));
    Two(a, Pair(b, TradeTail()), t.transferF, (t.transferN, (t.mintF, (t.burnF, (t.mintN, t.burnN)))));
    StructImage(TradeFields(), ToTrade, OfTrade, t);
  }

  // ---- every payload ------------------------------------------------------------------------

  /** The type byte and the payload of each type. */
  function TypedPayload(body: TxBody): (Byte, seq<Byte>) {
    match body
    case Call(x) => (0, CallBytes(x))
    case CallMulti(xs) => (1, LittleEndian(|xs|, 4) + CallsList(xs))
    case Trade(x) => (2, TradeBytes(x))
    case TransferFungible(x) => (3, x.to + (LittleEndian(x.tokenId, 8) + (LittleEndian(x.amount, 8))))
    case TransferFungibleGasPayer(x) => (4, x.to + (x.payer + (LittleEndian(x.tokenId, 8) + (LittleEndian(x.amount, 8)))))
    case TransferNonFungibleSingle(x) => (5, x.to + (LittleEndian(x.tokenId, 8) + (LittleEndian(x.instanceId, 8))))
    case TransferNonFungibleSingleGasPayer(x) => (6, x.to + (x.payer + (LittleEndian(x.tokenId, 8) + (LittleEndian(x.instanceId, 8)))))
    case TransferNonFungibleMulti(x) => (7, x.to + (LittleEndian(x.tokenId, 8) + (LittleEndian(|x.instanceIds|, 4) + IdsBytes(x.instanceIds))))
    case TransferNonFungibleMultiGasPayer(x) => (8, x.to + (x.payer + (LittleEndian(x.tokenId, 8) + (LittleEndian(|x.instanceIds|, 4) + IdsBytes(x.instanceIds)))))
    case MintFungible(x) => (9, LittleEndian(x.tokenId, 8) + (x.to + (WriteValue(x.amount))))
    case BurnFungible(x) => (10, LittleEndian(x.tokenId, 8) + (WriteValue(x.amount)))
    case BurnFungibleGasPayer(x) => (11, LittleEndian(x.tokenId, 8) + (x.payer + (WriteValue(x.amount))))
    case MintNonFungible(x) => (12, LittleEndian(x.tokenId, 8) + (x.to + (LittleEndian(x.seriesId, 4) + ((LittleEndian(|x.rom|, 4) + x.rom) + (LittleEndian(|x.ram|, 4) + x.ram)))))
    case BurnNonFungible(x) => (13, LittleEndian(x.tokenId, 8) + (LittleEndian(x.instanceId, 8)))
    case BurnNonFungibleGasPayer(x) => (14, LittleEndian(x.tokenId, 8) + (x.payer + (LittleEndian(x.instanceId, 8))))
    case Phantasma(x) => (15, ([|x.nexus|] + x.nexus) + (([|x.chain|] + x.chain) + (LittleEndian(|x.script|, 4) + x.script)))
    case PhantasmaRaw(x) => (16, LittleEndian(|x|, 4) + x)
  }

  /** Section counts are 31-bit numbers, as their negation is written. */
  predicate SectionsCounted(body: TxBody) {
    match body
    case Call(c) => |c.sections| < 0x8000_0000
    case CallMulti(cs) => forall i :: 0 <= i < |cs| ==> |cs[i].sections| < 0x8000_0000
    case _ => true
  }

  lemma CallPayloadIs(body: TxBody)
    requires SectionsCounted(body) && (body.Call? || body.CallMulti? || body.Trade? || body.Phantasma? || body.PhantasmaRaw?)
    ensures TypeOf(body) == TypedPayload(body).0 && BodyCodec(TypeOf(body)).enc(body) == TypedPayload(body).1
  {
    hide BodyCodec, CallBytes, CallsList, TradeBytes, LittleEndian, WriteValue, IdsBytes, TxMsgCallCodec, CallsCodec, TradeCodec, Counted,
         TransferFtCodec, TransferFtGasPayerCodec, TransferNftSingleCodec, TransferNftSingleGasPayerCodec, TransferNftMultiCodec, TransferNftMultiGasPayerCodec,
         MintFtCodec, BurnFtCodec, BurnFtGasPayerCodec, MintNftCodec, BurnNftCodec, BurnNftGasPayerCodec, PhantasmaMsgCodec;
    match body
    case Call(x) =>
      CallBodyShape(x);
      CallLayout(x);
    case CallMulti(xs) =>
      CallMultiBodyShape(xs);
      CallMultiLayout(xs);
    case Trade(x) =>
      TradeBodyShape(x);
      TradeLayout(x);
    case Phantasma(x) =>
      PhantasmaBodyShape(x);
      PhantasmaMsgLayout(x);
    case PhantasmaRaw(x) =>
      PhantasmaRawBodyShape(x);
      Blob(x);
  }

  lemma TransferPayloadIs(body: TxBody)
    requires body.TransferFungible? || body.TransferFungibleGasPayer? || body.TransferNonFungibleSingle? || body.TransferNonFungibleSingleGasPayer? || body.TransferNonFungibleMulti? || body.TransferNonFungibleMultiGasPayer?
    ensures TypeOf(body) == TypedPayload(body).0 && BodyCodec(TypeOf(body)).enc(body) == TypedPayload(body).1
  {
    hide BodyCodec, CallBytes, CallsList, TradeBytes, LittleEndian, WriteValue, IdsBytes, TxMsgCallCodec, CallsCodec, TradeCodec, Counted,
         TransferFtCodec, TransferFtGasPayerCodec, TransferNftSingleCodec, TransferNftSingleGasPayerCodec, TransferNftMultiCodec, TransferNftMultiGasPayerCodec,
         MintFtCodec, BurnFtCodec, BurnFtGasPayerCodec, MintNftCodec, BurnNftCodec, BurnNftGasPayerCodec, PhantasmaMsgCodec;
    match body
    case TransferFungible(x) =>
      TransferFungibleBodyShape(x);
      TransferFtLayout(x);
    case TransferFungibleGasPayer(x) =>
      TransferFungibleGasPayerBodyShape(x);
      TransferFtGasPayerLayout(x);
    case TransferNonFungibleSingle(x) =>
      TransferNonFungibleSingleBodyShape(x);
      TransferNftSingleLayout(x);
    case TransferNonFungibleSingleGasPayer(x) =>
      TransferNonFungibleSingleGasPayerBodyShape(x);
      TransferNftSingleGasPayerLayout(x);
    case TransferNonFungibleMulti(x) =>
      TransferNonFungibleMultiBodyShape(x);
      TransferNftMultiLayout(x);
    case TransferNonFungibleMultiGasPayer(x) =>
      TransferNonFungibleMultiGasPayerBodyShape(x);
      TransferNftMultiGasPayerLayout(x);
  }

  lemma TokenPayloadIs(body: TxBody)
    requires body.MintFungible? || body.BurnFungible? || body.BurnFungibleGasPayer? || body.MintNonFungible? || body.BurnNonFungible? || body.BurnNonFungibleGasPayer?
    ensures TypeOf(body) == TypedPayload(body).0 && BodyCodec(TypeOf(body)).enc(body) == TypedPayload(body).1
  {
    hide BodyCodec, CallBytes, CallsList, TradeBytes, LittleEndian, WriteValue, IdsBytes, TxMsgCallCodec, CallsCodec, TradeCodec, Counted,
         TransferFtCodec, TransferFtGasPayerCodec, TransferNftSingleCodec, TransferNftSingleGasPayerCodec, TransferNftMultiCodec, TransferNftMultiGasPayerCodec,
         MintFtCodec, BurnFtCodec, BurnFtGasPayerCodec, MintNftCodec, BurnNftCodec, BurnNftGasPayerCodec, PhantasmaMsgCodec;
    match body
    case MintFungible(x) =>
      MintFungibleBodyShape(x);
      MintFtLayout(x);
    case BurnFungible(x) =>
      BurnFungibleBodyShape(x);
      BurnFtLayout(x);
    case BurnFungibleGasPayer(x) =>
      BurnFungibleGasPayerBodyShape(x);
      BurnFtGasPayerLayout(x);
    case MintNonFungible(x) =>
      MintNonFungibleBodyShape(x);
      MintNftLayout(x);
    case BurnNonFungible(x) =>
      BurnNonFungibleBodyShape(x);
      BurnNftLayout(x);
    case BurnNonFungibleGasPayer(x) =>
      BurnNonFungibleGasPayerBodyShape(x);
      BurnNftGasPayerLayout(x);
  }

  lemma TypedPayloadIs(body: TxBody)
    requires SectionsCounted(body)
    ensures TypeOf(body) == TypedPayload(body).0 && BodyCodec(TypeOf(body)).enc(body) == TypedPayload(body).1
  {
    hide BodyCodec, TypeOf, TypedPayload, SectionsCounted;
    match body
    case Call(_) | CallMulti(_) | Trade(_) | Phantasma(_) | PhantasmaRaw(_) => CallPayloadIs(body);
    case TransferFungible(_) | TransferFungibleGasPayer(_) | TransferNonFungibleSingle(_)
       | TransferNonFungibleSingleGasPayer(_) | TransferNonFungibleMulti(_) | TransferNonFungibleMultiGasPayer(_) => TransferPayloadIs(body);
    case _ => TokenPayloadIs(body);
  }

  // ---- the message and its envelope ---------------------------------------------------------

  /** The type byte, four header fields, the note and the payload. */
  function MessageBytes(m: TxMsg): seq<Byte> {
    ([TypedPayload(m.body).0] + (LittleEndian(if m.expiry < 0 then 0x1_0000_0000_0000_0000 + m.expiry else m.expiry, 8) + (LittleEndian(m.maxGas, 8) + (LittleEndian(m.maxData, 8) + (m.gasFrom + ([|m.payload|] + m.payload))))))
      + TypedPayload(m.body).1
  }

  lemma MessageLayout(m: TxMsg)
    requires SectionsCounted(m.body)
    ensures SerializeTx(m) == MessageBytes(m)
  {
    hide LittleEndian, Pair, Bytes32Codec, U8Codec, U64Codec, I64Codec, SmallStringCodec, BodyCodec, TypedPayload, SectionsCounted, TypeOf;
    HeaderLayout(m);
    hide HeaderCodec;
    TypedPayloadIs(m.body);
    ChainImage(HeaderCodec(), (h: Header) => BodyCodec(h.0), OfTx(m).0, m.body);
  }

  lemma ChainImage<A, B>(c: Codec<A>, next: A -> Codec<B>, x: A, y: B)
    ensures Chain(c, next, 0).enc((x, y)) == c.enc(x) + next(x).enc(y)
  {
  }

  lemma HeaderLayout(m: TxMsg)
    ensures HeaderCodec().enc(OfTx(m).0) ==
      [TypeOf(m.body)] + (LittleEndian(FromI64(m.expiry), 8) + (LittleEndian(m.maxGas, 8) + (LittleEndian(m.maxData, 8) + (m.gasFrom + ([|m.payload|] + m.payload)))))
  {
    hide LittleEndian, Pair, Bytes32Codec, U8Codec, U64Codec, I64Codec, SmallStringCodec, TypeOf;
    var a := Pair(Bytes32Codec(), SmallStringCodec());
    var b := Pair(U64Codec(), a);
    var c := Pair(U64Codec(), b);
    var d := Pair(I64Codec(), c);
    Two(Bytes32Codec(), SmallStringCodec(), m.gasFrom, m.payload);
    Two(U64Codec(), a, m.maxData, (m.gasFrom, m.payload));
    Two(U64Codec(), b, m.maxGas, (m.maxData, (m.gasFrom, m.payload)));
    Two(I64Codec(), c, m.expiry, (m.maxGas, (m.maxData, (m.gasFrom, m.payload))));
    Two(U8Codec(), d, TypeOf(m.body), (m.expiry, (m.maxGas, (m.maxData, (m.gasFrom, m.payload)))));
    Key(m.gasFrom);
    Note(m.payload);
    Whole(m.maxData);
    Whole(m.maxGas);
    Moment(m.expiry);
    Tag(TypeOf(m.body));
  }

  /** Addresses and signatures one after another. */
  function WitnessBytesOf(ws: seq<Witness>): seq<Byte> {
    if ws == [] then [] else WitnessBytesOf(ws[..|ws| - 1]) + ws[|ws| - 1].address + ws[|ws| - 1].signature
  }

  lemma {:induction false} WitnessListBytes(ws: seq<Witness>)
    ensures EncAll(WitnessCodec(), ws) == WitnessBytesOf(ws)
  {
    hide WitnessCodec;
    if ws != [] {
      WitnessListBytes(ws[..|ws| - 1]);
      WitnessImage(ws[|ws| - 1]);
    }
  }

  /** The witnesses behind a message: a counted list of addresses and signatures where the caller chooses
      them, one bare signature, two, or none. */
  function WitnessPart(body: TxBody, ws: seq<Witness>): seq<Byte> {
    match body
    case Call(_) => LittleEndian(|ws|, 4) + WitnessBytesOf(ws)
    case CallMulti(_) => LittleEndian(|ws|, 4) + WitnessBytesOf(ws)
    case Trade(_) => LittleEndian(|ws|, 4) + WitnessBytesOf(ws)
    case Phantasma(_) => LittleEndian(|ws|, 4) + WitnessBytesOf(ws)
    case TransferFungible(_) => Signatures(ws, 1)
    case TransferNonFungibleSingle(_) => Signatures(ws, 1)
    case TransferNonFungibleMulti(_) => Signatures(ws, 1)
    case MintFungible(_) => Signatures(ws, 1)
    case BurnFungible(_) => Signatures(ws, 1)
    case MintNonFungible(_) => Signatures(ws, 1)
    case BurnNonFungible(_) => Signatures(ws, 1)
    case TransferFungibleGasPayer(_) => Signatures(ws, 2)
    case TransferNonFungibleSingleGasPayer(_) => Signatures(ws, 2)
    case TransferNonFungibleMultiGasPayer(_) => Signatures(ws, 2)
    case BurnFungibleGasPayer(_) => Signatures(ws, 2)
    case BurnNonFungibleGasPayer(_) => Signatures(ws, 2)
    case PhantasmaRaw(_) => []
  }

  function Signatures(ws: seq<Witness>, n: nat): seq<Byte> {
    if n == 0 || |ws| < n then [] else Signatures(ws, n - 1) + ws[n - 1].signature
  }

  /** Who signs: anyone where the caller chooses, the payer of the gas alone, or the payer of the gas and then
      the owner the payload names. */
  predicate SignedRightly(m: SignedTxMsg) {
    var ws := m.witnesses;
    match m.msg.body
    case Call(_) => |ws| < 0x8000_0000
    case CallMulti(_) => |ws| < 0x8000_0000
    case Trade(_) => |ws| < 0x8000_0000
    case Phantasma(_) => |ws| < 0x8000_0000
    case TransferFungible(_) => SoleSigner(m)
    case TransferNonFungibleSingle(_) => SoleSigner(m)
    case TransferNonFungibleMulti(_) => SoleSigner(m)
    case MintFungible(_) => SoleSigner(m)
    case BurnFungible(_) => SoleSigner(m)
    case MintNonFungible(_) => SoleSigner(m)
    case BurnNonFungible(_) => SoleSigner(m)
    case TransferFungibleGasPayer(x) => TwoSigners(m, x.payer)
    case TransferNonFungibleSingleGasPayer(x) => TwoSigners(m, x.payer)
    case TransferNonFungibleMultiGasPayer(x) => TwoSigners(m, x.payer)
    case BurnFungibleGasPayer(x) => TwoSigners(m, x.payer)
    case BurnNonFungibleGasPayer(x) => TwoSigners(m, x.payer)
    case PhantasmaRaw(_) => ws == []
  }

  predicate SoleSigner(m: SignedTxMsg) {
    |m.witnesses| == 1 && m.witnesses[0].address == m.msg.gasFrom
  }

  predicate TwoSigners(m: SignedTxMsg, owner: Bytes32) {
    |m.witnesses| == 2 && m.witnesses[0].address == m.msg.gasFrom && m.witnesses[1].address == owner
  }

  lemma SignedRightlyExactly(m: SignedTxMsg)
    ensures WitnessesFit(m.msg, m.witnesses) <==> SignedRightly(m)
  {
  }

  /** The bytes of an envelope: the message and the witnesses of its type. */
  lemma EnvelopeLayout(m: SignedTxMsg)
    requires SectionsCounted(m.msg.body) && SignedRightly(m)
    ensures SignedCodec().enc(m) == MessageBytes(m.msg) + WitnessPart(m.msg.body, m.witnesses)
  {
    hide TxCodec, LittleEndian, WitnessBytesOf, WitnessesCodec, SectionsCounted, WitnessesFit, SignedRightly, SerializeTx, MessageBytes, WitnessPart;
    SignedRightlyExactly(m);
    MessageLayout(m.msg);
    SignedShape(m);
    WitnessLayout(m.msg, m.witnesses);
    WitnessPartIs(m);
    assert TxCodec().enc(m.msg) == SerializeTx(m.msg) by { SerializedIs(m.msg); }
  }

  lemma SerializedIs(m: TxMsg)
    ensures TxCodec().enc(m) == SerializeTx(m)
  {
    hide TxCodec;
  }

  lemma WitnessPartIs(m: SignedTxMsg)
    requires WitnessesFit(m.msg, m.witnesses)
    ensures WitnessPart(m.msg.body, m.witnesses) ==
      match RequiredWitnessCount(m.msg.body)
      case None => LittleEndian(|m.witnesses|, 4) + WitnessBytesOf(m.witnesses)
      case Some(n) => if n == 0 then [] else if n == 1 then m.witnesses[0].signature else m.witnesses[0].signature + m.witnesses[1].signature
  {
    hide LittleEndian, WitnessBytesOf;
    SignaturesAre(m.witnesses);
  }

  /** The witnesses are written as laid out above. */
  lemma WitnessesWritten(msg: TxMsg, ws: seq<Witness>)
    requires WitnessesFit(msg, ws)
    ensures WitnessesCodec(msg).enc(ws) == WitnessPart(msg.body, ws)
  {
    hide LittleEndian, WitnessBytesOf, WitnessesCodec, WitnessPart;
    WitnessLayout(msg, ws);
    WitnessPartIs(SignedTxMsg(msg, ws));
  }

  /** Witnesses that are read are the right ones, and the bytes they were read from are theirs. */
  lemma WitnessesTaken(msg: TxMsg, s: seq<Byte>)
    requires WitnessesCodec(msg).dec(s).Some?
    ensures
      var (ws, n) := WitnessesCodec(msg).dec(s).value;
      n <= |s| && SignedRightly(SignedTxMsg(msg, ws)) && s[..n] == WitnessPart(msg.body, ws)
  {
    hide WitnessesCodec, WitnessPart, WitnessesFit, SignedRightly;
    WitnessesLawful(msg);
    TakesOnlyItsBytes(WitnessesCodec(msg), s, []);
    var (ws, n) := WitnessesCodec(msg).dec(s).value;
    WitnessesShape(msg, ws);
    SignedRightlyExactly(SignedTxMsg(msg, ws));
    WitnessesWritten(msg, ws);
  }

  lemma SignaturesAre(ws: seq<Witness>)
    ensures |ws| >= 1 ==> Signatures(ws, 1) == ws[0].signature
    ensures |ws| >= 2 ==> Signatures(ws, 2) == ws[0].signature + ws[1].signature
  {
    assert Signatures(ws, 0) == [];
    if |ws| >= 1 { assert [] + ws[0].signature == ws[0].signature; }
  }

  /** How many bytes the witnesses add: 4 and 96 for each, 64, 128, or none. */
  function WitnessBytesAdded(body: TxBody, count: nat): nat {
    match body
    case Call(_) => 4 + 96 * count
    case CallMulti(_) => 4 + 96 * count
    case Trade(_) => 4 + 96 * count
    case Phantasma(_) => 4 + 96 * count
    case TransferFungible(_) => 64
    case TransferNonFungibleSingle(_) => 64
    case TransferNonFungibleMulti(_) => 64
    case MintFungible(_) => 64
    case BurnFungible(_) => 64
    case MintNonFungible(_) => 64
    case BurnNonFungible(_) => 64
    case TransferFungibleGasPayer(_) => 128
    case TransferNonFungibleSingleGasPayer(_) => 128
    case TransferNonFungibleMultiGasPayer(_) => 128
    case BurnFungibleGasPayer(_) => 128
    case BurnNonFungibleGasPayer(_) => 128
    case PhantasmaRaw(_) => 0
  }

  /** The size of the envelope of every type, on 32 bits. */
  lemma EnvelopeBytesAre(msg: TxMsg, count: U32)
    requires SectionsCounted(msg.body)
    ensures EnvelopeBytes(msg, count) == (|MessageBytes(msg)| + WitnessBytesAdded(msg.body, count)) % 0x1_0000_0000
  {
    hide SectionsCounted, SerializeTx, MessageBytes;
    MessageLayout(msg);
  }

  lemma WitnessLayout(msg: TxMsg, ws: seq<Witness>)
    requires WitnessesFit(msg, ws)
    ensures WitnessesCodec(msg).enc(ws) ==
      match RequiredWitnessCount(msg.body)
      case None => LittleEndian(|ws|, 4) + WitnessBytesOf(ws)
      case Some(n) => if n == 0 then [] else if n == 1 then ws[0].signature else ws[0].signature + ws[1].signature
  {
    hide LittleEndian, EncAll, WitnessCodec, WitnessBytesOf, Pair, Bytes64Codec, TwoWitnesses, SoleWitness, NoWitnesses;
    SecondSigner(msg.body);
    WitnessListBytes(ws);
    assert NoWitnesses().enc([]) == [] by { NoBytes(); }
    SoleLayout(msg.gasFrom, ws);
    if TryGetGasPayerFrom(msg.body).Some? { TwoLayout(msg.gasFrom, TryGetGasPayerFrom(msg.body).value, ws); }
  }

  lemma NoBytes()
    ensures NoWitnesses().enc([]) == []
  {
  }

  lemma SoleLayout(gasFrom: Bytes32, ws: seq<Witness>)
    ensures |ws| == 1 && ws[0].address == gasFrom ==> SoleWitness(gasFrom).enc(ws) == ws[0].signature
  {
  }

  lemma TwoLayout(gasFrom: Bytes32, owner: Bytes32, ws: seq<Witness>)
    ensures |ws| == 2 && ws[0].address == gasFrom && ws[1].address == owner ==>
      TwoWitnesses(gasFrom, owner).enc(ws) == ws[0].signature + ws[1].signature
  {
    hide Pair, Bytes64Codec;
    if |ws| == 2 {
      Two(Bytes64Codec(), Bytes64Codec(), ws[0].signature, ws[1].signature);
      Signature(ws[0].signature);
      Signature(ws[1].signature);
    }
  }

  // ---- one message of the repository's vectors ----------------------------------------------

  function Nobody(): Bytes32 { seq(32, _ => 0) }

  /** A transfer of 100000000 atoms of token 1 with the note "test-payload". */
  function VectorMessage(): TxMsg {
    TxMsg(1759711416000, 10000000, 1000, Nobody(), VectorNote(), TransferFungible(TransferFt(Nobody(), 1, 100000000)))
  }

  function VectorNote(): SmallString {
    [0x74, 0x65, 0x73, 0x74, 0x2D, 0x70, 0x61, 0x79, 0x6C, 0x6F, 0x61, 0x64]
  }

  function VectorHead(): seq<Byte> {
    [3] + ([0xC0, 0x4E, 0xF9, 0xB6, 0x99, 0x01, 0, 0] + ([0x80, 0x96, 0x98, 0, 0, 0, 0, 0] + ([0xE8, 0x03, 0, 0, 0, 0, 0, 0] + (Nobody() + ([12] + VectorNote())))))
  }

  function VectorTail(): seq<Byte> {
    Nobody() + ([1, 0, 0, 0, 0, 0, 0, 0] + [0, 0xE1, 0xF5, 0x05, 0, 0, 0, 0])
  }

  /** The repository's vector TX1. */
  lemma VectorLayout()
    ensures SerializeTx(VectorMessage()) == VectorHead() + VectorTail()
  {
    hide LittleEndian, SerializeTx, Nobody;
    MessageLayout(VectorMessage());
    VectorWords();
  }

  lemma VectorWords()
    ensures LittleEndian(1759711416000, 8) == [0xC0, 0x4E, 0xF9, 0xB6, 0x99, 0x01, 0, 0]
    ensures LittleEndian(10000000, 8) == [0x80, 0x96, 0x98, 0, 0, 0, 0, 0]
    ensures LittleEndian(1000, 8) == [0xE8, 0x03, 0, 0, 0, 0, 0, 0]
    ensures LittleEndian(1, 8) == [1, 0, 0, 0, 0, 0, 0, 0]
    ensures LittleEndian(100000000, 8) == [0, 0xE1, 0xF5, 0x05, 0, 0, 0, 0]
  {
    hide LittleEndian;
    VectorExpiry();
    VectorMaxGas();
    VectorMaxData();
    VectorToken();
    VectorAtoms();
  }

  lemma VectorExpiry()
    ensures LittleEndian(1759711416000, 8) == [0xC0, 0x4E, 0xF9, 0xB6, 0x99, 0x01, 0, 0]
  {
  }

  lemma VectorMaxGas()
    ensures LittleEndian(10000000, 8) == [0x80, 0x96, 0x98, 0, 0, 0, 0, 0]
  {
  }

  lemma VectorMaxData()
    ensures LittleEndian(1000, 8) == [0xE8, 0x03, 0, 0, 0, 0, 0, 0]
  {
  }

  lemma VectorToken()
    ensures LittleEndian(1, 8) == [1, 0, 0, 0, 0, 0, 0, 0]
  {
  }

  lemma VectorAtoms()
    ensures LittleEndian(100000000, 8) == [0, 0xE1, 0xF5, 0x05, 0, 0, 0, 0]
  {
  }
}
