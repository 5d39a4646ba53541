/** The layout of every payload, field for field, and of the message that carries it. */
module MessageCodecs {
  import opened Wrappers
  import opened Words64
  import opened Codecs
  import opened WireFormat
  import opened IntX
  import opened Messages
  import opened CallCodec

  function InstanceIdsCodec(): Codec<seq<U64>> {
    ArrayOf(U64Codec(), 8)
  }

  /** The laws of the field formats, with the least image of each. */
  lemma FieldsLawful()
    ensures Lawful(Bytes32Codec()) && Canonical(Bytes32Codec()) && Bytes32Codec().least == 32
    ensures Lawful(Bytes64Codec()) && Canonical(Bytes64Codec()) && Bytes64Codec().least == 64
    ensures Lawful(U8Codec()) && Canonical(U8Codec()) && U8Codec().least == 1
    ensures Lawful(U32Codec()) && Canonical(U32Codec()) && U32Codec().least == 4
    ensures Lawful(U64Codec()) && Canonical(U64Codec()) && U64Codec().least == 8
    ensures Lawful(I64Codec()) && Canonical(I64Codec()) && I64Codec().least == 8
    ensures Lawful(SmallStringCodec()) && Canonical(SmallStringCodec()) && SmallStringCodec().least == 1
    ensures Lawful(Counted()) && Canonical(Counted()) && Counted().least == 4
    ensures Lawful(InstanceIdsCodec()) && Canonical(InstanceIdsCodec()) && InstanceIdsCodec().least == 4
    ensures Lawful(IntXCodec()) && IntXCodec().least == 9
  {
    hide Lawful, Canonical;
    FixedBytesLawful();
    WordsLawful();
    SignedWordsLawful();
    SmallStringLawful();
    CountedLawful();
    IntXLawful();
    ArrayLawful(U64Codec(), 8);
  }

  lemma FieldShapes()
    ensures (forall v :: Bytes32Codec().fits(v)) && (forall v :: Bytes64Codec().fits(v))
    ensures (forall v :: U8Codec().fits(v)) && (forall v :: U32Codec().fits(v)) && (forall v :: U64Codec().fits(v)) && (forall v :: I64Codec().fits(v))
    ensures forall v :: SmallStringCodec().fits(v)
    ensures forall v :: Counted().fits(v) <==> |v| < 0x8000_0000
    ensures forall v :: InstanceIdsCodec().fits(v) <==> |v| < 0x8000_0000
    ensures forall v :: IntXCodec().fits(v) <==> InInt256(v)
  {
    hide LittleEndian;
  }

  // ---- TransferFt ----

  function ToTransferFt(p: (Bytes32, (U64, U64))): TransferFt {
    TransferFt(p.0, p.1.0, p.1.1)
  }

  function OfTransferFt(x: TransferFt): (Bytes32, (U64, U64)) {
    (x.to, (x.tokenId, x.amount))
  }

  function TransferFtFields(): Codec<(Bytes32, (U64, U64))> {
    Pair(Bytes32Codec(), Pair(U64Codec(), U64Codec()))
  }

  function TransferFtCodec(): Codec<TransferFt> {
    Struct(TransferFtFields(), ToTransferFt, OfTransferFt)
  }

  lemma TransferFtLawful()
    ensures Lawful(TransferFtCodec()) && TransferFtCodec().least == 48
    ensures Canonical(TransferFtCodec())
  {
    hide Lawful, Canonical, Bytes32Codec, Bytes64Codec, U8Codec, U32Codec, U64Codec, I64Codec, SmallStringCodec, Counted, InstanceIdsCodec, IntXCodec;
    FieldsLawful();
    PairLawful(U64Codec(), U64Codec());
    PairLawful(Bytes32Codec(), Pair(U64Codec(), U64Codec()));
    StructLawful(TransferFtFields(), ToTransferFt, OfTransferFt);
  }

  lemma TransferFtShape()
    ensures forall x :: TransferFtCodec().fits(x)
  {
    hide Bytes32Codec, Bytes64Codec, U8Codec, U32Codec, U64Codec, I64Codec, SmallStringCodec, Counted, InstanceIdsCodec, IntXCodec, Pair, Struct;
    FieldShapes();
    PairShape(U64Codec(), U64Codec());
    PairShape(Bytes32Codec(), Pair(U64Codec(), U64Codec()));
    StructShape(TransferFtFields(), ToTransferFt, OfTransferFt);
  }

  // ---- TransferFtGasPayer ----

  function ToTransferFtGasPayer(p: (Bytes32, (Bytes32, (U64, U64)))): TransferFtGasPayer {
    TransferFtGasPayer(p.0, p.1.0, p.1.1.0, p.1.1.1)
  }

  function OfTransferFtGasPayer(x: TransferFtGasPayer): (Bytes32, (Bytes32, (U64, U64))) {
    (x.to, (x.payer, (x.tokenId, x.amount)))
  }

  function TransferFtGasPayerFields(): Codec<(Bytes32, (Bytes32, (U64, U64)))> {
    Pair(Bytes32Codec(), Pair(Bytes32Codec(), Pair(U64Codec(), U64Codec())))
  }

  function TransferFtGasPayerCodec(): Codec<TransferFtGasPayer> {
    Struct(TransferFtGasPayerFields(), ToTransferFtGasPayer, OfTransferFtGasPayer)
  }

  lemma TransferFtGasPayerLawful()
    ensures Lawful(TransferFtGasPayerCodec()) && TransferFtGasPayerCodec().least == 80
    ensures Canonical(TransferFtGasPayerCodec())
  {
    hide Lawful, Canonical, Bytes32Codec, Bytes64Codec, U8Codec, U32Codec, U64Codec, I64Codec, SmallStringCodec, Counted, InstanceIdsCodec, IntXCodec;
    FieldsLawful();
    PairLawful(U64Codec(), U64Codec());
    PairLawful(Bytes32Codec(), Pair(U64Codec(), U64Codec()));
    PairLawful(Bytes32Codec(), Pair(Bytes32Codec(), Pair(U64Codec(), U64Codec())));
    StructLawful(TransferFtGasPayerFields(), ToTransferFtGasPayer, OfTransferFtGasPayer);
  }

  lemma TransferFtGasPayerShape()
    ensures forall x :: TransferFtGasPayerCodec().fits(x)
  {
    hide Bytes32Codec, Bytes64Codec, U8Codec, U32Codec, U64Codec, I64Codec, SmallStringCodec, Counted, InstanceIdsCodec, IntXCodec, Pair, Struct;
    FieldShapes();
    PairShape(U64Codec(), U64Codec());
    PairShape(Bytes32Codec(), Pair(U64Codec(), U64Codec()));
    PairShape(Bytes32Codec(), Pair(Bytes32Codec(), Pair(U64Codec(), U64Codec())));
    StructShape(TransferFtGasPayerFields(), ToTransferFtGasPayer, OfTransferFtGasPayer);
  }

  // ---- TransferNftSingle ----

  function ToTransferNftSingle(p: (Bytes32, (U64, U64))): TransferNftSingle {
    TransferNftSingle(p.0, p.1.0, p.1.1)
  }

  function OfTransferNftSingle(x: TransferNftSingle): (Bytes32, (U64, U64)) {
    (x.to, (x.tokenId, x.instanceId))
  }

  function TransferNftSingleFields(): Codec<(Bytes32, (U64, U64))> {
    Pair(Bytes32Codec(), Pair(U64Codec(), U64Codec()))
  }

  function TransferNftSingleCodec(): Codec<TransferNftSingle> {
    Struct(TransferNftSingleFields(), ToTransferNftSingle, OfTransferNftSingle)
  }

  lemma TransferNftSingleLawful()
    ensures Lawful(TransferNftSingleCodec()) && TransferNftSingleCodec().least == 48
    ensures Canonical(TransferNftSingleCodec())
  {
    hide Lawful, Canonical, Bytes32Codec, Bytes64Codec, U8Codec, U32Codec, U64Codec, I64Codec, SmallStringCodec, Counted, InstanceIdsCodec, IntXCodec;
    FieldsLawful();
    PairLawful(U64Codec(), U64Codec());
    PairLawful(Bytes32Codec(), Pair(U64Codec(), U64Codec()));
    StructLawful(TransferNftSingleFields(), ToTransferNftSingle, OfTransferNftSingle);
  }

  lemma TransferNftSingleShape()
    ensures forall x :: TransferNftSingleCodec().fits(x)
  {
    hide Bytes32Codec, Bytes64Codec, U8Codec, U32Codec, U64Codec, I64Codec, SmallStringCodec, Counted, InstanceIdsCodec, IntXCodec, Pair, Struct;
    FieldShapes();
    PairShape(U64Codec(), U64Codec());
    PairShape(Bytes32Codec(), Pair(U64Codec(), U64Codec()));
    StructShape(TransferNftSingleFields(), ToTransferNftSingle, OfTransferNftSingle);
  }

  // ---- TransferNftSingleGasPayer ----

  function ToTransferNftSingleGasPayer(p: (Bytes32, (Bytes32, (U64, U64)))): TransferNftSingleGasPayer {
    TransferNftSingleGasPayer(p.0, p.1.0, p.1.1.0, p.1.1.1)
  }

  function OfTransferNftSingleGasPayer(x: TransferNftSingleGasPayer): (Bytes32, (Bytes32, (U64, U64))) {
    (x.to, (x.payer, (x.tokenId, x.instanceId)))
  }

  function TransferNftSingleGasPayerFields(): Codec<(Bytes32, (Bytes32, (U64, U64)))> {
    Pair(Bytes32Codec(), Pair(Bytes32Codec(), Pair(U64Codec(), U64Codec())))
  }

  function TransferNftSingleGasPayerCodec(): Codec<TransferNftSingleGasPayer> {
    Struct(TransferNftSingleGasPayerFields(), ToTransferNftSingleGasPayer, OfTransferNftSingleGasPayer)
  }

  lemma TransferNftSingleGasPayerLawful()
    ensures Lawful(TransferNftSingleGasPayerCodec()) && TransferNftSingleGasPayerCodec().least == 80
    ensures Canonical(TransferNftSingleGasPayerCodec())
  {
    hide Lawful, Canonical, Bytes32Codec, Bytes64Codec, U8Codec, U32Codec, U64Codec, I64Codec, SmallStringCodec, Counted, InstanceIdsCodec, IntXCodec;
    FieldsLawful();
    PairLawful(U64Codec(), U64Codec());
    PairLawful(Bytes32Codec(), Pair(U64Codec(), U64Codec()));
    PairLawful(Bytes32Codec(), Pair(Bytes32Codec(), Pair(U64Codec(), U64Codec())));
    StructLawful(TransferNftSingleGasPayerFields(), ToTransferNftSingleGasPayer, OfTransferNftSingleGasPayer);
  }

  lemma TransferNftSingleGasPayerShape()
    ensures forall x :: TransferNftSingleGasPayerCodec().fits(x)
  {
    hide Bytes32Codec, Bytes64Codec, U8Codec, U32Codec, U64Codec, I64Codec, SmallStringCodec, Counted, InstanceIdsCodec, IntXCodec, Pair, Struct;
    FieldShapes();
    PairShape(U64Codec(), U64Codec());
    PairShape(Bytes32Codec(), Pair(U64Codec(), U64Codec()));
    PairShape(Bytes32Codec(), Pair(Bytes32Codec(), Pair(U64Codec(), U64Codec())));
    StructShape(TransferNftSingleGasPayerFields(), ToTransferNftSingleGasPayer, OfTransferNftSingleGasPayer);
  }

  // ---- TransferNftMulti ----

  function ToTransferNftMulti(p: (Bytes32, (U64, seq<U64>))): TransferNftMulti {
    TransferNftMulti(p.0, p.1.0, p.1.1)
  }

  function OfTransferNftMulti(x: TransferNftMulti): (Bytes32, (U64, seq<U64>)) {
    (x.to, (x.tokenId, x.instanceIds))
  }

  function TransferNftMultiFields(): Codec<(Bytes32, (U64, seq<U64>))> {
    Pair(Bytes32Codec(), Pair(U64Codec(), InstanceIdsCodec()))
  }

  function TransferNftMultiCodec(): Codec<TransferNftMulti> {
    Struct(TransferNftMultiFields(), ToTransferNftMulti, OfTransferNftMulti)
  }

  lemma TransferNftMultiLawful()
    ensures Lawful(TransferNftMultiCodec()) && TransferNftMultiCodec().least == 44
    ensures Canonical(TransferNftMultiCodec())
  {
    hide Lawful, Canonical, Bytes32Codec, Bytes64Codec, U8Codec, U32Codec, U64Codec, I64Codec, SmallStringCodec, Counted, InstanceIdsCodec, IntXCodec;
    FieldsLawful();
    PairLawful(U64Codec(), InstanceIdsCodec());
    PairLawful(Bytes32Codec(), Pair(U64Codec(), InstanceIdsCodec()));
    StructLawful(TransferNftMultiFields(), ToTransferNftMulti, OfTransferNftMulti);
  }

  lemma TransferNftMultiShape()
    ensures forall x :: TransferNftMultiCodec().fits(x) <==> |x.instanceIds| < 0x8000_0000
  {
    hide Bytes32Codec, Bytes64Codec, U8Codec, U32Codec, U64Codec, I64Codec, SmallStringCodec, Counted, InstanceIdsCodec, IntXCodec, Pair, Struct;
    FieldShapes();
    PairShape(U64Codec(), InstanceIdsCodec());
    PairShape(Bytes32Codec(), Pair(U64Codec(), InstanceIdsCodec()));
    StructShape(TransferNftMultiFields(), ToTransferNftMulti, OfTransferNftMulti);
  }

  // ---- TransferNftMultiGasPayer ----

  function ToTransferNftMultiGasPayer(p: (Bytes32, (Bytes32, (U64, seq<U64>)))): TransferNftMultiGasPayer {
    TransferNftMultiGasPayer(p.0, p.1.0, p.1.1.0, p.1.1.1)
  }

  function OfTransferNftMultiGasPayer(x: TransferNftMultiGasPayer): (Bytes32, (Bytes32, (U64, seq<U64>))) {
    (x.to, (x.payer, (x.tokenId, x.instanceIds)))
  }

  function TransferNftMultiGasPayerFields(): Codec<(Bytes32, (Bytes32, (U64, seq<U64>)))> {
    Pair(Bytes32Codec(), Pair(Bytes32Codec(), Pair(U64Codec(), InstanceIdsCodec())))
  }

  function TransferNftMultiGasPayerCodec(): Codec<TransferNftMultiGasPayer> {
    Struct(TransferNftMultiGasPayerFields(), ToTransferNftMultiGasPayer, OfTransferNftMultiGasPayer)
  }

  lemma TransferNftMultiGasPayerLawful()
    ensures Lawful(TransferNftMultiGasPayerCodec()) && TransferNftMultiGasPayerCodec().least == 76
    ensures Canonical(TransferNftMultiGasPayerCodec())
  {
    hide Lawful, Canonical, Bytes32Codec, Bytes64Codec, U8Codec, U32Codec, U64Codec, I64Codec, SmallStringCodec, Counted, InstanceIdsCodec, IntXCodec;
    FieldsLawful();
    PairLawful(U64Codec(), InstanceIdsCodec());
    PairLawful(Bytes32Codec(), Pair(U64Codec(), InstanceIdsCodec()));
    PairLawful(Bytes32Codec(), Pair(Bytes32Codec(), Pair(U64Codec(), InstanceIdsCodec())));
    StructLawful(TransferNftMultiGasPayerFields(), ToTransferNftMultiGasPayer, OfTransferNftMultiGasPayer);
  }

  lemma TransferNftMultiGasPayerShape()
    ensures forall x :: TransferNftMultiGasPayerCodec().fits(x) <==> |x.instanceIds| < 0x8000_0000
  {
    hide Bytes32Codec, Bytes64Codec, U8Codec, U32Codec, U64Codec, I64Codec, SmallStringCodec, Counted, InstanceIdsCodec, IntXCodec, Pair, Struct;
    FieldShapes();
    PairShape(U64Codec(), InstanceIdsCodec());
    PairShape(Bytes32Codec(), Pair(U64Codec(), InstanceIdsCodec()));
    PairShape(Bytes32Codec(), Pair(Bytes32Codec(), Pair(U64Codec(), InstanceIdsCodec())));
    StructShape(TransferNftMultiGasPayerFields(), ToTransferNftMultiGasPayer, OfTransferNftMultiGasPayer);
  }

  // ---- MintFt ----

  function ToMintFt(p: (U64, (Bytes32, int))): MintFt {
    MintFt(p.0, p.1.1, p.1.0)
  }

  function OfMintFt(x: MintFt): (U64, (Bytes32, int)) {
    (x.tokenId, (x.to, x.amount))
  }

  function MintFtFields(): Codec<(U64, (Bytes32, int))> {
    Pair(U64Codec(), Pair(Bytes32Codec(), IntXCodec()))
  }

  function MintFtCodec(): Codec<MintFt> {
    Struct(MintFtFields(), ToMintFt, OfMintFt)
  }

  lemma MintFtLawful()
    ensures Lawful(MintFtCodec()) && MintFtCodec().least == 49
  {
    hide Lawful, Canonical, Bytes32Codec, Bytes64Codec, U8Codec, U32Codec, U64Codec, I64Codec, SmallStringCodec, Counted, InstanceIdsCodec, IntXCodec;
    FieldsLawful();
    PairLawful(Bytes32Codec(), IntXCodec());
    PairLawful(U64Codec(), Pair(Bytes32Codec(), IntXCodec()));
    StructLawful(MintFtFields(), ToMintFt, OfMintFt);
  }

  lemma MintFtShape()
    ensures forall x :: MintFtCodec().fits(x) <==> InInt256(x.amount)
  {
    hide Bytes32Codec, Bytes64Codec, U8Codec, U32Codec, U64Codec, I64Codec, SmallStringCodec, Counted, InstanceIdsCodec, IntXCodec, Pair, Struct;
    FieldShapes();
    PairShape(Bytes32Codec(), IntXCodec());
    PairShape(U64Codec(), Pair(Bytes32Codec(), IntXCodec()));
    StructShape(MintFtFields(), ToMintFt, OfMintFt);
  }

  // ---- BurnFt ----

  function ToBurnFt(p: (U64, int)): BurnFt {
    BurnFt(p.0, p.1)
  }

  function OfBurnFt(x: BurnFt): (U64, int) {
    (x.tokenId, x.amount)
  }

  function BurnFtFields(): Codec<(U64, int)> {
    Pair(U64Codec(), IntXCodec())
  }

  function BurnFtCodec(): Codec<BurnFt> {
    Struct(BurnFtFields(), ToBurnFt, OfBurnFt)
  }

  lemma BurnFtLawful()
    ensures Lawful(BurnFtCodec()) && BurnFtCodec().least == 17
  {
    hide Lawful, Canonical, Bytes32Codec, Bytes64Codec, U8Codec, U32Codec, U64Codec, I64Codec, SmallStringCodec, Counted, InstanceIdsCodec, IntXCodec;
    FieldsLawful();
    PairLawful(U64Codec(), IntXCodec());
    StructLawful(BurnFtFields(), ToBurnFt, OfBurnFt);
  }

  lemma BurnFtShape()
    ensures forall x :: BurnFtCodec().fits(x) <==> InInt256(x.amount)
  {
    hide Bytes32Codec, Bytes64Codec, U8Codec, U32Codec, U64Codec, I64Codec, SmallStringCodec, Counted, InstanceIdsCodec, IntXCodec, Pair, Struct;
    FieldShapes();
    PairShape(U64Codec(), IntXCodec());
    StructShape(BurnFtFields(), ToBurnFt, OfBurnFt);
  }

  // ---- BurnFtGasPayer ----

  function ToBurnFtGasPayer(p: (U64, (Bytes32, int))): BurnFtGasPayer {
    BurnFtGasPayer(p.0, p.1.1, p.1.0)
  }

  function OfBurnFtGasPayer(x: BurnFtGasPayer): (U64, (Bytes32, int)) {
    (x.tokenId, (x.payer, x.amount))
  }

  function BurnFtGasPayerFields(): Codec<(U64, (Bytes32, int))> {
    Pair(U64Codec(), Pair(Bytes32Codec(), IntXCodec()))
  }

  function BurnFtGasPayerCodec(): Codec<BurnFtGasPayer> {
    Struct(BurnFtGasPayerFields(), ToBurnFtGasPayer, OfBurnFtGasPayer)
  }

  lemma BurnFtGasPayerLawful()
    ensures Lawful(BurnFtGasPayerCodec()) && BurnFtGasPayerCodec().least == 49
  {
    hide Lawful, Canonical, Bytes32Codec, Bytes64Codec, U8Codec, U32Codec, U64Codec, I64Codec, SmallStringCodec, Counted, InstanceIdsCodec, IntXCodec;
    FieldsLawful();
    PairLawful(Bytes32Codec(), IntXCodec());
    PairLawful(U64Codec(), Pair(Bytes32Codec(), IntXCodec()));
    StructLawful(BurnFtGasPayerFields(), ToBurnFtGasPayer, OfBurnFtGasPayer);
  }

  lemma BurnFtGasPayerShape()
    ensures forall x :: BurnFtGasPayerCodec().fits(x) <==> InInt256(x.amount)
  {
    hide Bytes32Codec, Bytes64Codec, U8Codec, U32Codec, U64Codec, I64Codec, SmallStringCodec, Counted, InstanceIdsCodec, IntXCodec, Pair, Struct;
    FieldShapes();
    PairShape(Bytes32Codec(), IntXCodec());
    PairShape(U64Codec(), Pair(Bytes32Codec(), IntXCodec()));
    StructShape(BurnFtGasPayerFields(), ToBurnFtGasPayer, OfBurnFtGasPayer);
  }

  // ---- MintNft ----

  function ToMintNft(p: (U64, (Bytes32, (U32, (seq<Byte>, seq<Byte>))))): MintNft {
    MintNft(p.0, p.1.0, p.1.1.0, p.1.1.1.0, p.1.1.1.1)
  }

  function OfMintNft(x: MintNft): (U64, (Bytes32, (U32, (seq<Byte>, seq<Byte>)))) {
    (x.tokenId, (x.to, (x.seriesId, (x.rom, x.ram))))
  }

  function MintNftFields(): Codec<(U64, (Bytes32, (U32, (seq<Byte>, seq<Byte>))))> {
    Pair(U64Codec(), Pair(Bytes32Codec(), Pair(U32Codec(), Pair(Counted(), Counted()))))
  }

  function MintNftCodec(): Codec<MintNft> {
    Struct(MintNftFields(), ToMintNft, OfMintNft)
  }

  lemma MintNftLawful()
    ensures Lawful(MintNftCodec()) && MintNftCodec().least == 52
    ensures Canonical(MintNftCodec())
  {
    hide Lawful, Canonical, Bytes32Codec, Bytes64Codec, U8Codec, U32Codec, U64Codec, I64Codec, SmallStringCodec, Counted, InstanceIdsCodec, IntXCodec;
    FieldsLawful();
    PairLawful(Counted(), Counted());
    PairLawful(U32Codec(), Pair(Counted(), Counted()));
    PairLawful(Bytes32Codec(), Pair(U32Codec(), Pair(Counted(), Counted())));
    PairLawful(U64Codec(), Pair(Bytes32Codec(), Pair(U32Codec(), Pair(Counted(), Counted()))));
    StructLawful(MintNftFields(), ToMintNft, OfMintNft);
  }

  lemma MintNftShape()
    ensures forall x :: MintNftCodec().fits(x) <==> |x.rom| < 0x8000_0000 && |x.ram| < 0x8000_0000
  {
    hide Bytes32Codec, Bytes64Codec, U8Codec, U32Codec, U64Codec, I64Codec, SmallStringCodec, Counted, InstanceIdsCodec, IntXCodec, Pair, Struct;
    FieldShapes();
    PairShape(Counted(), Counted());
    PairShape(U32Codec(), Pair(Counted(), Counted()));
    PairShape(Bytes32Codec(), Pair(U32Codec(), Pair(Counted(), Counted())));
    PairShape(U64Codec(), Pair(Bytes32Codec(), Pair(U32Codec(), Pair(Counted(), Counted()))));
    StructShape(MintNftFields(), ToMintNft, OfMintNft);
  }

  // ---- BurnNft ----

  function ToBurnNft(p: (U64, U64)): BurnNft {
    BurnNft(p.0, p.1)
  }

  function OfBurnNft(x: BurnNft): (U64, U64) {
    (x.tokenId, x.instanceId)
  }

  function BurnNftFields(): Codec<(U64, U64)> {
    Pair(U64Codec(), U64Codec())
  }

  function BurnNftCodec(): Codec<BurnNft> {
    Struct(BurnNftFields(), ToBurnNft, OfBurnNft)
  }

  lemma BurnNftLawful()
    ensures Lawful(BurnNftCodec()) && BurnNftCodec().least == 16
    ensures Canonical(BurnNftCodec())
  {
    hide Lawful, Canonical, Bytes32Codec, Bytes64Codec, U8Codec, U32Codec, U64Codec, I64Codec, SmallStringCodec, Counted, InstanceIdsCodec, IntXCodec;
    FieldsLawful();
    PairLawful(U64Codec(), U64Codec());
    StructLawful(BurnNftFields(), ToBurnNft, OfBurnNft);
  }

  lemma BurnNftShape()
    ensures forall x :: BurnNftCodec().fits(x)
  {
    hide Bytes32Codec, Bytes64Codec, U8Codec, U32Codec, U64Codec, I64Codec, SmallStringCodec, Counted, InstanceIdsCodec, IntXCodec, Pair, Struct;
    FieldShapes();
    PairShape(U64Codec(), U64Codec());
    StructShape(BurnNftFields(), ToBurnNft, OfBurnNft);
  }

  // ---- BurnNftGasPayer ----

  function ToBurnNftGasPayer(p: (U64, (Bytes32, U64))): BurnNftGasPayer {
    BurnNftGasPayer(p.0, p.1.0, p.1.1)
  }

  function OfBurnNftGasPayer(x: BurnNftGasPayer): (U64, (Bytes32, U64)) {
    (x.tokenId, (x.payer, x.instanceId))
  }

  function BurnNftGasPayerFields(): Codec<(U64, (Bytes32, U64))> {
    Pair(U64Codec(), Pair(Bytes32Codec(), U64Codec()))
  }

  function BurnNftGasPayerCodec(): Codec<BurnNftGasPayer> {
    Struct(BurnNftGasPayerFields(), ToBurnNftGasPayer, OfBurnNftGasPayer)
  }

  lemma BurnNftGasPayerLawful()
    ensures Lawful(BurnNftGasPayerCodec()) && BurnNftGasPayerCodec().least == 48
    ensures Canonical(BurnNftGasPayerCodec())
  {
    hide Lawful, Canonical, Bytes32Codec, Bytes64Codec, U8Codec, U32Codec, U64Codec, I64Codec, SmallStringCodec, Counted, InstanceIdsCodec, IntXCodec;
    FieldsLawful();
    PairLawful(Bytes32Codec(), U64Codec());
    PairLawful(U64Codec(), Pair(Bytes32Codec(), U64Codec()));
    StructLawful(BurnNftGasPayerFields(), ToBurnNftGasPayer, OfBurnNftGasPayer);
  }

  lemma BurnNftGasPayerShape()
    ensures forall x :: BurnNftGasPayerCodec().fits(x)
  {
    hide Bytes32Codec, Bytes64Codec, U8Codec, U32Codec, U64Codec, I64Codec, SmallStringCodec, Counted, InstanceIdsCodec, IntXCodec, Pair, Struct;
    FieldShapes();
    PairShape(Bytes32Codec(), U64Codec());
    PairShape(U64Codec(), Pair(Bytes32Codec(), U64Codec()));
    StructShape(BurnNftGasPayerFields(), ToBurnNftGasPayer, OfBurnNftGasPayer);
  }

  // ---- PhantasmaMsg ----

  function ToPhantasmaMsg(p: (SmallString, (SmallString, seq<Byte>))): PhantasmaMsg {
    PhantasmaMsg(p.0, p.1.0, p.1.1)
  }

  function OfPhantasmaMsg(x: PhantasmaMsg): (SmallString, (SmallString, seq<Byte>)) {
    (x.nexus, (x.chain, x.script))
  }

  function PhantasmaMsgFields(): Codec<(SmallString, (SmallString, seq<Byte>))> {
    Pair(SmallStringCodec(), Pair(SmallStringCodec(), Counted()))
  }

  function PhantasmaMsgCodec(): Codec<PhantasmaMsg> {
    Struct(PhantasmaMsgFields(), ToPhantasmaMsg, OfPhantasmaMsg)
  }

  lemma PhantasmaMsgLawful()
    ensures Lawful(PhantasmaMsgCodec()) && PhantasmaMsgCodec().least == 6
    ensures Canonical(PhantasmaMsgCodec())
  {
    hide Lawful, Canonical, Bytes32Codec, Bytes64Codec, U8Codec, U32Codec, U64Codec, I64Codec, SmallStringCodec, Counted, InstanceIdsCodec, IntXCodec;
    FieldsLawful();
    PairLawful(SmallStringCodec(), Counted());
    PairLawful(SmallStringCodec(), Pair(SmallStringCodec(), Counted()));
    StructLawful(PhantasmaMsgFields(), ToPhantasmaMsg, OfPhantasmaMsg);
  }

  lemma PhantasmaMsgShape()
    ensures forall x :: PhantasmaMsgCodec().fits(x) <==> |x.script| < 0x8000_0000
  {
    hide Bytes32Codec, Bytes64Codec, U8Codec, U32Codec, U64Codec, I64Codec, SmallStringCodec, Counted, InstanceIdsCodec, IntXCodec, Pair, Struct;
    FieldShapes();
    PairShape(SmallStringCodec(), Counted());
    PairShape(SmallStringCodec(), Pair(SmallStringCodec(), Counted()));
    StructShape(PhantasmaMsgFields(), ToPhantasmaMsg, OfPhantasmaMsg);
  }

  // ---- Witness ----

  function ToWitness(p: (Bytes32, Bytes64)): Witness {
    Witness(p.0, p.1)
  }

  function OfWitness(x: Witness): (Bytes32, Bytes64) {
    (x.address, x.signature)
  }

  function WitnessFields(): Codec<(Bytes32, Bytes64)> {
    Pair(Bytes32Codec(), Bytes64Codec())
  }

  function WitnessCodec(): Codec<Witness> {
    Struct(WitnessFields(), ToWitness, OfWitness)
  }

  lemma WitnessLawful()
    ensures Lawful(WitnessCodec()) && WitnessCodec().least == 96
    ensures Canonical(WitnessCodec())
  {
    hide Lawful, Canonical, Bytes32Codec, Bytes64Codec, U8Codec, U32Codec, U64Codec, I64Codec, SmallStringCodec, Counted, InstanceIdsCodec, IntXCodec;
    FieldsLawful();
    PairLawful(Bytes32Codec(), Bytes64Codec());
    StructLawful(WitnessFields(), ToWitness, OfWitness);
  }

  lemma WitnessShape()
    ensures forall x :: WitnessCodec().fits(x)
  {
    hide Bytes32Codec, Bytes64Codec, U8Codec, U32Codec, U64Codec, I64Codec, SmallStringCodec, Counted, InstanceIdsCodec, IntXCodec, Pair, Struct;
    FieldShapes();
    PairShape(Bytes32Codec(), Bytes64Codec());
    StructShape(WitnessFields(), ToWitness, OfWitness);
  }
}
