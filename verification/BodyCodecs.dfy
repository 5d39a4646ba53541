/** The seventeen payloads behind one type byte. A type byte with no layout is refused. */
module BodyCodecs {
  import opened Wrappers
  import opened Words64
  import opened Codecs
  import opened WireFormat
  import opened Messages
  import opened CallCodec
  import opened MessageCodecs

  // ---- the trade lists ----------------------------------------------------------------------

  /** The smallest image of each kind of trade element, as the reader bounds its counts. */
  const MIN_TRANSFER_F := 80
  const MIN_TRANSFER_N := 80
  const MIN_MINT_F := 49
  const MIN_BURN_F := 49
  const MIN_MINT_N := 52
  const MIN_BURN_N := 48

  type TradeLists = (seq<TransferFtGasPayer>, (seq<TransferNftSingleGasPayer>, (seq<MintFt>, (seq<BurnFtGasPayer>, (seq<MintNft>, seq<BurnNftGasPayer>)))))

  function ToTrade(p: TradeLists): TradeMsg {
    TradeMsg(p.0, p.1.0, p.1.1.0, p.1.1.1.0, p.1.1.1.1.0, p.1.1.1.1.1)
  }

  function OfTrade(t: TradeMsg): TradeLists {
    (t.transferF, (t.transferN, (t.mintF, (t.burnF, (t.mintN, t.burnN)))))
  }

  function TradeFields(): Codec<TradeLists> {
    Pair(ArrayOf(TransferFtGasPayerCodec(), MIN_TRANSFER_F),
    Pair(ArrayOf(TransferNftSingleGasPayerCodec(), MIN_TRANSFER_N), TradeTail()))
  }

  function TradeTail(): Codec<(seq<MintFt>, (seq<BurnFtGasPayer>, (seq<MintNft>, seq<BurnNftGasPayer>)))> {
    Pair(ArrayOf(MintFtCodec(), MIN_MINT_F), Pair(ArrayOf(BurnFtGasPayerCodec(), MIN_BURN_F),
    Pair(ArrayOf(MintNftCodec(), MIN_MINT_N), ArrayOf(BurnNftGasPayerCodec(), MIN_BURN_N))))
  }

  function TradeCodec(): Codec<TradeMsg> {
    Struct(TradeFields(), ToTrade, OfTrade)
  }

  /** Each bound is a true lower bound of its element's image, so the six lists compose. */
  lemma TradeListsLawful()
    ensures Lawful(ArrayOf(TransferFtGasPayerCodec(), MIN_TRANSFER_F)) && Lawful(ArrayOf(TransferNftSingleGasPayerCodec(), MIN_TRANSFER_N))
    ensures Lawful(ArrayOf(MintFtCodec(), MIN_MINT_F)) && Lawful(ArrayOf(BurnFtGasPayerCodec(), MIN_BURN_F))
    ensures Lawful(ArrayOf(MintNftCodec(), MIN_MINT_N)) && Lawful(ArrayOf(BurnNftGasPayerCodec(), MIN_BURN_N))
  {
    hide Lawful, Canonical, TransferFtGasPayerCodec, TransferNftSingleGasPayerCodec, MintFtCodec, BurnFtGasPayerCodec, MintNftCodec, BurnNftGasPayerCodec;
    TransferFtGasPayerLawful();
    TransferNftSingleGasPayerLawful();
    MintFtLawful();
    BurnFtGasPayerLawful();
    MintNftLawful();
    BurnNftGasPayerLawful();
    ArrayLawful(TransferFtGasPayerCodec(), MIN_TRANSFER_F);
    ArrayLawful(TransferNftSingleGasPayerCodec(), MIN_TRANSFER_N);
    ArrayLawful(MintFtCodec(), MIN_MINT_F);
    ArrayLawful(BurnFtGasPayerCodec(), MIN_BURN_F);
    ArrayLawful(MintNftCodec(), MIN_MINT_N);
    ArrayLawful(BurnNftGasPayerCodec(), MIN_BURN_N);
  }

  lemma TradeLawful()
    ensures Lawful(TradeCodec())
  {
    hide Lawful, ArrayOf, TransferFtGasPayerCodec, TransferNftSingleGasPayerCodec, MintFtCodec, BurnFtGasPayerCodec, MintNftCodec, BurnNftGasPayerCodec;
    TradeListsLawful();
    var mintN, burnN := ArrayOf(MintNftCodec(), MIN_MINT_N), ArrayOf(BurnNftGasPayerCodec(), MIN_BURN_N);
    var mintF, burnF := ArrayOf(MintFtCodec(), MIN_MINT_F), ArrayOf(BurnFtGasPayerCodec(), MIN_BURN_F);
    PairLawful(mintN, burnN);
    PairLawful(burnF, Pair(mintN, burnN));
    PairLawful(mintF, Pair(burnF, Pair(mintN, burnN)));
    PairLawful(ArrayOf(TransferNftSingleGasPayerCodec(), MIN_TRANSFER_N), TradeTail());
    PairLawful(ArrayOf(TransferFtGasPayerCodec(), MIN_TRANSFER_F), Pair(ArrayOf(TransferNftSingleGasPayerCodec(), MIN_TRANSFER_N), TradeTail()));
    StructLawful(TradeFields(), ToTrade, OfTrade);
  }

  function CallsCodec(): Codec<seq<TxMsgCall>> {
    ArrayOf(TxMsgCallCodec(), 12)
  }

  lemma CallsLawful()
    ensures Lawful(CallsCodec()) && Canonical(CallsCodec())
  {
    hide Lawful, Canonical, TxMsgCallCodec;
    TxMsgCallLawful();
    ArrayLawful(TxMsgCallCodec(), 12);
  }

  // ---- one alternative per type byte --------------------------------------------------------

  function CallBody(): Codec<TxBody> {
    Variant(TxMsgCallCodec(), (x: TxMsgCall) => Call(x), (b: TxBody) => if b.Call? then Some(b.call) else None)
  }

  lemma CallBodyLawful()
    ensures Lawful(CallBody()) && Canonical(CallBody()) && forall b :: CallBody().fits(b) ==> b.Call?
  {
    hide Lawful, Canonical, TxMsgCallCodec;
    TxMsgCallLawful();
    VariantLawful(TxMsgCallCodec(), (x: TxMsgCall) => Call(x), (b: TxBody) => if b.Call? then Some(b.call) else None);
  }

  function CallMultiBody(): Codec<TxBody> {
    Variant(CallsCodec(), (x: seq<TxMsgCall>) => CallMulti(x), (b: TxBody) => if b.CallMulti? then Some(b.calls) else None)
  }

  lemma CallMultiBodyLawful()
    ensures Lawful(CallMultiBody()) && Canonical(CallMultiBody()) && forall b :: CallMultiBody().fits(b) ==> b.CallMulti?
  {
    hide Lawful, Canonical, CallsCodec;
    CallsLawful();
    VariantLawful(CallsCodec(), (x: seq<TxMsgCall>) => CallMulti(x), (b: TxBody) => if b.CallMulti? then Some(b.calls) else None);
  }

  function TradeBody(): Codec<TxBody> {
    Variant(TradeCodec(), (x: TradeMsg) => Trade(x), (b: TxBody) => if b.Trade? then Some(b.trade) else None)
  }

  lemma TradeBodyLawful()
    ensures Lawful(TradeBody()) && forall b :: TradeBody().fits(b) ==> b.Trade?
  {
    hide Lawful, Canonical, TradeCodec;
    TradeLawful();
    VariantLawful(TradeCodec(), (x: TradeMsg) => Trade(x), (b: TxBody) => if b.Trade? then Some(b.trade) else None);
  }

  function TransferFungibleBody(): Codec<TxBody> {
    Variant(TransferFtCodec(), (x: TransferFt) => TransferFungible(x), (b: TxBody) => if b.TransferFungible? then Some(b.transferFt) else None)
  }

  lemma TransferFungibleBodyLawful()
    ensures Lawful(TransferFungibleBody()) && Canonical(TransferFungibleBody()) && forall b :: TransferFungibleBody().fits(b) ==> b.TransferFungible?
  {
    hide Lawful, Canonical, TransferFtCodec;
    TransferFtLawful();
    VariantLawful(TransferFtCodec(), (x: TransferFt) => TransferFungible(x), (b: TxBody) => if b.TransferFungible? then Some(b.transferFt) else None);
  }

  function TransferFungibleGasPayerBody(): Codec<TxBody> {
    Variant(TransferFtGasPayerCodec(), (x: TransferFtGasPayer) => TransferFungibleGasPayer(x), (b: TxBody) => if b.TransferFungibleGasPayer? then Some(b.transferFtGasPayer) else None)
  }

  lemma TransferFungibleGasPayerBodyLawful()
    ensures Lawful(TransferFungibleGasPayerBody()) && Canonical(TransferFungibleGasPayerBody()) && forall b :: TransferFungibleGasPayerBody().fits(b) ==> b.TransferFungibleGasPayer?
  {
    hide Lawful, Canonical, TransferFtGasPayerCodec;
    TransferFtGasPayerLawful();
    VariantLawful(TransferFtGasPayerCodec(), (x: TransferFtGasPayer) => TransferFungibleGasPayer(x), (b: TxBody) => if b.TransferFungibleGasPayer? then Some(b.transferFtGasPayer) else None);
  }

  function TransferNonFungibleSingleBody(): Codec<TxBody> {
    Variant(TransferNftSingleCodec(), (x: TransferNftSingle) => TransferNonFungibleSingle(x), (b: TxBody) => if b.TransferNonFungibleSingle? then Some(b.transferNftSingle) else None)
  }

  lemma TransferNonFungibleSingleBodyLawful()
    ensures Lawful(TransferNonFungibleSingleBody()) && Canonical(TransferNonFungibleSingleBody()) && forall b :: TransferNonFungibleSingleBody().fits(b) ==> b.TransferNonFungibleSingle?
  {
    hide Lawful, Canonical, TransferNftSingleCodec;
    TransferNftSingleLawful();
    VariantLawful(TransferNftSingleCodec(), (x: TransferNftSingle) => TransferNonFungibleSingle(x), (b: TxBody) => if b.TransferNonFungibleSingle? then Some(b.transferNftSingle) else None);
  }

  function TransferNonFungibleSingleGasPayerBody(): Codec<TxBody> {
    Variant(TransferNftSingleGasPayerCodec(), (x: TransferNftSingleGasPayer) => TransferNonFungibleSingleGasPayer(x), (b: TxBody) => if b.TransferNonFungibleSingleGasPayer? then Some(b.transferNftSingleGasPayer) else None)
  }

  lemma TransferNonFungibleSingleGasPayerBodyLawful()
    ensures Lawful(TransferNonFungibleSingleGasPayerBody()) && Canonical(TransferNonFungibleSingleGasPayerBody()) && forall b :: TransferNonFungibleSingleGasPayerBody().fits(b) ==> b.TransferNonFungibleSingleGasPayer?
  {
    hide Lawful, Canonical, TransferNftSingleGasPayerCodec;
    TransferNftSingleGasPayerLawful();
    VariantLawful(TransferNftSingleGasPayerCodec(), (x: TransferNftSingleGasPayer) => TransferNonFungibleSingleGasPayer(x), (b: TxBody) => if b.TransferNonFungibleSingleGasPayer? then Some(b.transferNftSingleGasPayer) else None);
  }

  function TransferNonFungibleMultiBody(): Codec<TxBody> {
    Variant(TransferNftMultiCodec(), (x: TransferNftMulti) => TransferNonFungibleMulti(x), (b: TxBody) => if b.TransferNonFungibleMulti? then Some(b.transferNftMulti) else None)
  }

  lemma TransferNonFungibleMultiBodyLawful()
    ensures Lawful(TransferNonFungibleMultiBody()) && Canonical(TransferNonFungibleMultiBody()) && forall b :: TransferNonFungibleMultiBody().fits(b) ==> b.TransferNonFungibleMulti?
  {
    hide Lawful, Canonical, TransferNftMultiCodec;
    TransferNftMultiLawful();
    VariantLawful(TransferNftMultiCodec(), (x: TransferNftMulti) => TransferNonFungibleMulti(x), (b: TxBody) => if b.TransferNonFungibleMulti? then Some(b.transferNftMulti) else None);
  }

  function TransferNonFungibleMultiGasPayerBody(): Codec<TxBody> {
    Variant(TransferNftMultiGasPayerCodec(), (x: TransferNftMultiGasPayer) => TransferNonFungibleMultiGasPayer(x), (b: TxBody) => if b.TransferNonFungibleMultiGasPayer? then Some(b.transferNftMultiGasPayer) else None)
  }

  lemma TransferNonFungibleMultiGasPayerBodyLawful()
    ensures Lawful(TransferNonFungibleMultiGasPayerBody()) && Canonical(TransferNonFungibleMultiGasPayerBody()) && forall b :: TransferNonFungibleMultiGasPayerBody().fits(b) ==> b.TransferNonFungibleMultiGasPayer?
  {
    hide Lawful, Canonical, TransferNftMultiGasPayerCodec;
    TransferNftMultiGasPayerLawful();
    VariantLawful(TransferNftMultiGasPayerCodec(), (x: TransferNftMultiGasPayer) => TransferNonFungibleMultiGasPayer(x), (b: TxBody) => if b.TransferNonFungibleMultiGasPayer? then Some(b.transferNftMultiGasPayer) else None);
  }

  function MintFungibleBody(): Codec<TxBody> {
    Variant(MintFtCodec(), (x: MintFt) => MintFungible(x), (b: TxBody) => if b.MintFungible? then Some(b.mintFungible) else None)
  }

  lemma MintFungibleBodyLawful()
    ensures Lawful(MintFungibleBody()) && forall b :: MintFungibleBody().fits(b) ==> b.MintFungible?
  {
    hide Lawful, Canonical, MintFtCodec;
    MintFtLawful();
    VariantLawful(MintFtCodec(), (x: MintFt) => MintFungible(x), (b: TxBody) => if b.MintFungible? then Some(b.mintFungible) else None);
  }

  function BurnFungibleBody(): Codec<TxBody> {
    Variant(BurnFtCodec(), (x: BurnFt) => BurnFungible(x), (b: TxBody) => if b.BurnFungible? then Some(b.burnFungible) else None)
  }

  lemma BurnFungibleBodyLawful()
    ensures Lawful(BurnFungibleBody()) && forall b :: BurnFungibleBody().fits(b) ==> b.BurnFungible?
  {
    hide Lawful, Canonical, BurnFtCodec;
    BurnFtLawful();
    VariantLawful(BurnFtCodec(), (x: BurnFt) => BurnFungible(x), (b: TxBody) => if b.BurnFungible? then Some(b.burnFungible) else None);
  }

  function BurnFungibleGasPayerBody(): Codec<TxBody> {
    Variant(BurnFtGasPayerCodec(), (x: BurnFtGasPayer) => BurnFungibleGasPayer(x), (b: TxBody) => if b.BurnFungibleGasPayer? then Some(b.burnFungibleGasPayer) else None)
  }

  lemma BurnFungibleGasPayerBodyLawful()
    ensures Lawful(BurnFungibleGasPayerBody()) && forall b :: BurnFungibleGasPayerBody().fits(b) ==> b.BurnFungibleGasPayer?
  {
    hide Lawful, Canonical, BurnFtGasPayerCodec;
    BurnFtGasPayerLawful();
    VariantLawful(BurnFtGasPayerCodec(), (x: BurnFtGasPayer) => BurnFungibleGasPayer(x), (b: TxBody) => if b.BurnFungibleGasPayer? then Some(b.burnFungibleGasPayer) else None);
  }

  function MintNonFungibleBody(): Codec<TxBody> {
    Variant(MintNftCodec(), (x: MintNft) => MintNonFungible(x), (b: TxBody) => if b.MintNonFungible? then Some(b.mintNonFungible) else None)
  }

  lemma MintNonFungibleBodyLawful()
    ensures Lawful(MintNonFungibleBody()) && Canonical(MintNonFungibleBody()) && forall b :: MintNonFungibleBody().fits(b) ==> b.MintNonFungible?
  {
    hide Lawful, Canonical, MintNftCodec;
    MintNftLawful();
    VariantLawful(MintNftCodec(), (x: MintNft) => MintNonFungible(x), (b: TxBody) => if b.MintNonFungible? then Some(b.mintNonFungible) else None);
  }

  function BurnNonFungibleBody(): Codec<TxBody> {
    Variant(BurnNftCodec(), (x: BurnNft) => BurnNonFungible(x), (b: TxBody) => if b.BurnNonFungible? then Some(b.burnNonFungible) else None)
  }

  lemma BurnNonFungibleBodyLawful()
    ensures Lawful(BurnNonFungibleBody()) && Canonical(BurnNonFungibleBody()) && forall b :: BurnNonFungibleBody().fits(b) ==> b.BurnNonFungible?
  {
    hide Lawful, Canonical, BurnNftCodec;
    BurnNftLawful();
    VariantLawful(BurnNftCodec(), (x: BurnNft) => BurnNonFungible(x), (b: TxBody) => if b.BurnNonFungible? then Some(b.burnNonFungible) else None);
  }

  function BurnNonFungibleGasPayerBody(): Codec<TxBody> {
    Variant(BurnNftGasPayerCodec(), (x: BurnNftGasPayer) => BurnNonFungibleGasPayer(x), (b: TxBody) => if b.BurnNonFungibleGasPayer? then Some(b.burnNonFungibleGasPayer) else None)
  }

  lemma BurnNonFungibleGasPayerBodyLawful()
    ensures Lawful(BurnNonFungibleGasPayerBody()) && Canonical(BurnNonFungibleGasPayerBody()) && forall b :: BurnNonFungibleGasPayerBody().fits(b) ==> b.BurnNonFungibleGasPayer?
  {
    hide Lawful, Canonical, BurnNftGasPayerCodec;
    BurnNftGasPayerLawful();
    VariantLawful(BurnNftGasPayerCodec(), (x: BurnNftGasPayer) => BurnNonFungibleGasPayer(x), (b: TxBody) => if b.BurnNonFungibleGasPayer? then Some(b.burnNonFungibleGasPayer) else None);
  }

  function PhantasmaBody(): Codec<TxBody> {
    Variant(PhantasmaMsgCodec(), (x: PhantasmaMsg) => Phantasma(x), (b: TxBody) => if b.Phantasma? then Some(b.phantasma) else None)
  }

  lemma PhantasmaBodyLawful()
    ensures Lawful(PhantasmaBody()) && Canonical(PhantasmaBody()) && forall b :: PhantasmaBody().fits(b) ==> b.Phantasma?
  {
    hide Lawful, Canonical, PhantasmaMsgCodec;
    PhantasmaMsgLawful();
    VariantLawful(PhantasmaMsgCodec(), (x: PhantasmaMsg) => Phantasma(x), (b: TxBody) => if b.Phantasma? then Some(b.phantasma) else None);
  }

  function PhantasmaRawBody(): Codec<TxBody> {
    Variant(Counted(), (x: seq<Byte>) => PhantasmaRaw(x), (b: TxBody) => if b.PhantasmaRaw? then Some(b.transaction) else None)
  }

  lemma PhantasmaRawBodyLawful()
    ensures Lawful(PhantasmaRawBody()) && Canonical(PhantasmaRawBody()) && forall b :: PhantasmaRawBody().fits(b) ==> b.PhantasmaRaw?
  {
    hide Lawful, Canonical, Counted;
    CountedLawful();
    VariantLawful(Counted(), (x: seq<Byte>) => PhantasmaRaw(x), (b: TxBody) => if b.PhantasmaRaw? then Some(b.transaction) else None);
  }

  function BodyCodec(tag: U8): Codec<TxBody> {
    match tag
    case 0 => CallBody()
    case 1 => CallMultiBody()
    case 2 => TradeBody()
    case 3 => TransferFungibleBody()
    case 4 => TransferFungibleGasPayerBody()
    case 5 => TransferNonFungibleSingleBody()
    case 6 => TransferNonFungibleSingleGasPayerBody()
    case 7 => TransferNonFungibleMultiBody()
    case 8 => TransferNonFungibleMultiGasPayerBody()
    case 9 => MintFungibleBody()
    case 10 => BurnFungibleBody()
    case 11 => BurnFungibleGasPayerBody()
    case 12 => MintNonFungibleBody()
    case 13 => BurnNonFungibleBody()
    case 14 => BurnNonFungibleGasPayerBody()
    case 15 => PhantasmaBody()
    case 16 => PhantasmaRawBody()
    case _ => Refused()
  }

  /** Which payload each type byte names. */
  lemma BodyTags()
    ensures BodyCodec(0) == CallBody()
    ensures BodyCodec(1) == CallMultiBody()
    ensures BodyCodec(2) == TradeBody()
    ensures BodyCodec(3) == TransferFungibleBody()
    ensures BodyCodec(4) == TransferFungibleGasPayerBody()
    ensures BodyCodec(5) == TransferNonFungibleSingleBody()
    ensures BodyCodec(6) == TransferNonFungibleSingleGasPayerBody()
    ensures BodyCodec(7) == TransferNonFungibleMultiBody()
    ensures BodyCodec(8) == TransferNonFungibleMultiGasPayerBody()
    ensures BodyCodec(9) == MintFungibleBody()
    ensures BodyCodec(10) == BurnFungibleBody()
    ensures BodyCodec(11) == BurnFungibleGasPayerBody()
    ensures BodyCodec(12) == MintNonFungibleBody()
    ensures BodyCodec(13) == BurnNonFungibleBody()
    ensures BodyCodec(14) == BurnNonFungibleGasPayerBody()
    ensures BodyCodec(15) == PhantasmaBody()
    ensures BodyCodec(16) == PhantasmaRawBody()
  {
    hide CallBody, CallMultiBody, TradeBody, TransferFungibleBody, TransferFungibleGasPayerBody,
         TransferNonFungibleSingleBody, TransferNonFungibleSingleGasPayerBody, TransferNonFungibleMultiBody,
         TransferNonFungibleMultiGasPayerBody, MintFungibleBody, BurnFungibleBody, BurnFungibleGasPayerBody,
         MintNonFungibleBody, BurnNonFungibleBody, BurnNonFungibleGasPayerBody, PhantasmaBody, PhantasmaRawBody;
  }

  lemma CallBodyIs(x: TxMsgCall)
    ensures CallBody().fits(Call(x)) <==> TxMsgCallCodec().fits(x)
    ensures CallBody().enc(Call(x)) == TxMsgCallCodec().enc(x)
    ensures TypeOf(Call(x)) == 0
  {
    hide TxMsgCallCodec;
  }

  lemma CallBodyShape(x: TxMsgCall)
    ensures BodyCodec(TypeOf(Call(x))).fits(Call(x)) <==> TxMsgCallCodec().fits(x)
    ensures BodyCodec(TypeOf(Call(x))).enc(Call(x)) == TxMsgCallCodec().enc(x)
  {
    hide *;
    CallBodyIs(x);
    assert BodyCodec(0) == CallBody() by { BodyTags(); }
  }

  lemma CallMultiBodyIs(x: seq<TxMsgCall>)
    ensures CallMultiBody().fits(CallMulti(x)) <==> CallsCodec().fits(x)
    ensures CallMultiBody().enc(CallMulti(x)) == CallsCodec().enc(x)
    ensures TypeOf(CallMulti(x)) == 1
  {
    hide CallsCodec;
  }

  lemma CallMultiBodyShape(x: seq<TxMsgCall>)
    ensures BodyCodec(TypeOf(CallMulti(x))).fits(CallMulti(x)) <==> CallsCodec().fits(x)
    ensures BodyCodec(TypeOf(CallMulti(x))).enc(CallMulti(x)) == CallsCodec().enc(x)
  {
    hide *;
    CallMultiBodyIs(x);
    assert BodyCodec(1) == CallMultiBody() by { BodyTags(); }
  }

  lemma TradeBodyIs(x: TradeMsg)
    ensures TradeBody().fits(Trade(x)) <==> TradeCodec().fits(x)
    ensures TradeBody().enc(Trade(x)) == TradeCodec().enc(x)
    ensures TypeOf(Trade(x)) == 2
  {
    hide TradeCodec;
  }

  lemma TradeBodyShape(x: TradeMsg)
    ensures BodyCodec(TypeOf(Trade(x))).fits(Trade(x)) <==> TradeCodec().fits(x)
    ensures BodyCodec(TypeOf(Trade(x))).enc(Trade(x)) == TradeCodec().enc(x)
  {
    hide *;
    TradeBodyIs(x);
    assert BodyCodec(2) == TradeBody() by { BodyTags(); }
  }

  lemma TransferFungibleBodyIs(x: TransferFt)
    ensures TransferFungibleBody().fits(TransferFungible(x)) <==> TransferFtCodec().fits(x)
    ensures TransferFungibleBody().enc(TransferFungible(x)) == TransferFtCodec().enc(x)
    ensures TypeOf(TransferFungible(x)) == 3
  {
    hide TransferFtCodec;
  }

  lemma TransferFungibleBodyShape(x: TransferFt)
    ensures BodyCodec(TypeOf(TransferFungible(x))).fits(TransferFungible(x)) <==> TransferFtCodec().fits(x)
    ensures BodyCodec(TypeOf(TransferFungible(x))).enc(TransferFungible(x)) == TransferFtCodec().enc(x)
  {
    hide *;
    TransferFungibleBodyIs(x);
    assert BodyCodec(3) == TransferFungibleBody() by { BodyTags(); }
  }

  lemma TransferFungibleGasPayerBodyIs(x: TransferFtGasPayer)
    ensures TransferFungibleGasPayerBody().fits(TransferFungibleGasPayer(x)) <==> TransferFtGasPayerCodec().fits(x)
    ensures TransferFungibleGasPayerBody().enc(TransferFungibleGasPayer(x)) == TransferFtGasPayerCodec().enc(x)
    ensures TypeOf(TransferFungibleGasPayer(x)) == 4
  {
    hide TransferFtGasPayerCodec;
  }

  lemma TransferFungibleGasPayerBodyShape(x: TransferFtGasPayer)
    ensures BodyCodec(TypeOf(TransferFungibleGasPayer(x))).fits(TransferFungibleGasPayer(x)) <==> TransferFtGasPayerCodec().fits(x)
    ensures BodyCodec(TypeOf(TransferFungibleGasPayer(x))).enc(TransferFungibleGasPayer(x)) == TransferFtGasPayerCodec().enc(x)
  {
    hide *;
    TransferFungibleGasPayerBodyIs(x);
    assert BodyCodec(4) == TransferFungibleGasPayerBody() by { BodyTags(); }
  }

  lemma TransferNonFungibleSingleBodyIs(x: TransferNftSingle)
    ensures TransferNonFungibleSingleBody().fits(TransferNonFungibleSingle(x)) <==> TransferNftSingleCodec().fits(x)
    ensures TransferNonFungibleSingleBody().enc(TransferNonFungibleSingle(x)) == TransferNftSingleCodec().enc(x)
    ensures TypeOf(TransferNonFungibleSingle(x)) == 5
  {
    hide TransferNftSingleCodec;
  }

  lemma TransferNonFungibleSingleBodyShape(x: TransferNftSingle)
    ensures BodyCodec(TypeOf(TransferNonFungibleSingle(x))).fits(TransferNonFungibleSingle(x)) <==> TransferNftSingleCodec().fits(x)
    ensures BodyCodec(TypeOf(TransferNonFungibleSingle(x))).enc(TransferNonFungibleSingle(x)) == TransferNftSingleCodec().enc(x)
  {
    hide *;
    TransferNonFungibleSingleBodyIs(x);
    assert BodyCodec(5) == TransferNonFungibleSingleBody() by { BodyTags(); }
  }

  lemma TransferNonFungibleSingleGasPayerBodyIs(x: TransferNftSingleGasPayer)
    ensures TransferNonFungibleSingleGasPayerBody().fits(TransferNonFungibleSingleGasPayer(x)) <==> TransferNftSingleGasPayerCodec().fits(x)
    ensures TransferNonFungibleSingleGasPayerBody().enc(TransferNonFungibleSingleGasPayer(x)) == TransferNftSingleGasPayerCodec().enc(x)
    ensures TypeOf(TransferNonFungibleSingleGasPayer(x)) == 6
  {
    hide TransferNftSingleGasPayerCodec;
  }

  lemma TransferNonFungibleSingleGasPayerBodyShape(x: TransferNftSingleGasPayer)
    ensures BodyCodec(TypeOf(TransferNonFungibleSingleGasPayer(x))).fits(TransferNonFungibleSingleGasPayer(x)) <==> TransferNftSingleGasPayerCodec().fits(x)
    ensures BodyCodec(TypeOf(TransferNonFungibleSingleGasPayer(x))).enc(TransferNonFungibleSingleGasPayer(x)) == TransferNftSingleGasPayerCodec().enc(x)
  {
    hide *;
    TransferNonFungibleSingleGasPayerBodyIs(x);
    assert BodyCodec(6) == TransferNonFungibleSingleGasPayerBody() by { BodyTags(); }
  }

  lemma TransferNonFungibleMultiBodyIs(x: TransferNftMulti)
    ensures TransferNonFungibleMultiBody().fits(TransferNonFungibleMulti(x)) <==> TransferNftMultiCodec().fits(x)
    ensures TransferNonFungibleMultiBody().enc(TransferNonFungibleMulti(x)) == TransferNftMultiCodec().enc(x)
    ensures TypeOf(TransferNonFungibleMulti(x)) == 7
  {
    hide TransferNftMultiCodec;
  }

  lemma TransferNonFungibleMultiBodyShape(x: TransferNftMulti)
    ensures BodyCodec(TypeOf(TransferNonFungibleMulti(x))).fits(TransferNonFungibleMulti(x)) <==> TransferNftMultiCodec().fits(x)
    ensures BodyCodec(TypeOf(TransferNonFungibleMulti(x))).enc(TransferNonFungibleMulti(x)) == TransferNftMultiCodec().enc(x)
  {
    hide *;
    TransferNonFungibleMultiBodyIs(x);
    assert BodyCodec(7) == TransferNonFungibleMultiBody() by { BodyTags(); }
  }

  lemma TransferNonFungibleMultiGasPayerBodyIs(x: TransferNftMultiGasPayer)
    ensures TransferNonFungibleMultiGasPayerBody().fits(TransferNonFungibleMultiGasPayer(x)) <==> TransferNftMultiGasPayerCodec().fits(x)
    ensures TransferNonFungibleMultiGasPayerBody().enc(TransferNonFungibleMultiGasPayer(x)) == TransferNftMultiGasPayerCodec().enc(x)
    ensures TypeOf(TransferNonFungibleMultiGasPayer(x)) == 8
  {
    hide TransferNftMultiGasPayerCodec;
  }

  lemma TransferNonFungibleMultiGasPayerBodyShape(x: TransferNftMultiGasPayer)
    ensures BodyCodec(TypeOf(TransferNonFungibleMultiGasPayer(x))).fits(TransferNonFungibleMultiGasPayer(x)) <==> TransferNftMultiGasPayerCodec().fits(x)
    ensures BodyCodec(TypeOf(TransferNonFungibleMultiGasPayer(x))).enc(TransferNonFungibleMultiGasPayer(x)) == TransferNftMultiGasPayerCodec().enc(x)
  {
    hide *;
    TransferNonFungibleMultiGasPayerBodyIs(x);
    assert BodyCodec(8) == TransferNonFungibleMultiGasPayerBody() by { BodyTags(); }
  }

  lemma MintFungibleBodyIs(x: MintFt)
    ensures MintFungibleBody().fits(MintFungible(x)) <==> MintFtCodec().fits(x)
    ensures MintFungibleBody().enc(MintFungible(x)) == MintFtCodec().enc(x)
    ensures TypeOf(MintFungible(x)) == 9
  {
    hide MintFtCodec;
  }

  lemma MintFungibleBodyShape(x: MintFt)
    ensures BodyCodec(TypeOf(MintFungible(x))).fits(MintFungible(x)) <==> MintFtCodec().fits(x)
    ensures BodyCodec(TypeOf(MintFungible(x))).enc(MintFungible(x)) == MintFtCodec().enc(x)
  {
    hide *;
    MintFungibleBodyIs(x);
    assert BodyCodec(9) == MintFungibleBody() by { BodyTags(); }
  }

  lemma BurnFungibleBodyIs(x: BurnFt)
    ensures BurnFungibleBody().fits(BurnFungible(x)) <==> BurnFtCodec().fits(x)
    ensures BurnFungibleBody().enc(BurnFungible(x)) == BurnFtCodec().enc(x)
    ensures TypeOf(BurnFungible(x)) == 10
  {
    hide BurnFtCodec;
  }

  lemma BurnFungibleBodyShape(x: BurnFt)
    ensures BodyCodec(TypeOf(BurnFungible(x))).fits(BurnFungible(x)) <==> BurnFtCodec().fits(x)
    ensures BodyCodec(TypeOf(BurnFungible(x))).enc(BurnFungible(x)) == BurnFtCodec().enc(x)
  {
    hide *;
    BurnFungibleBodyIs(x);
    assert BodyCodec(10) == BurnFungibleBody() by { BodyTags(); }
  }

  lemma BurnFungibleGasPayerBodyIs(x: BurnFtGasPayer)
    ensures BurnFungibleGasPayerBody().fits(BurnFungibleGasPayer(x)) <==> BurnFtGasPayerCodec().fits(x)
    ensures BurnFungibleGasPayerBody().enc(BurnFungibleGasPayer(x)) == BurnFtGasPayerCodec().enc(x)
    ensures TypeOf(BurnFungibleGasPayer(x)) == 11
  {
    hide BurnFtGasPayerCodec;
  }

  lemma BurnFungibleGasPayerBodyShape(x: BurnFtGasPayer)
    ensures BodyCodec(TypeOf(BurnFungibleGasPayer(x))).fits(BurnFungibleGasPayer(x)) <==> BurnFtGasPayerCodec().fits(x)
    ensures BodyCodec(TypeOf(BurnFungibleGasPayer(x))).enc(BurnFungibleGasPayer(x)) == BurnFtGasPayerCodec().enc(x)
  {
    hide *;
    BurnFungibleGasPayerBodyIs(x);
    assert BodyCodec(11) == BurnFungibleGasPayerBody() by { BodyTags(); }
  }

  lemma MintNonFungibleBodyIs(x: MintNft)
    ensures MintNonFungibleBody().fits(MintNonFungible(x)) <==> MintNftCodec().fits(x)
    ensures MintNonFungibleBody().enc(MintNonFungible(x)) == MintNftCodec().enc(x)
    ensures TypeOf(MintNonFungible(x)) == 12
  {
    hide MintNftCodec;
  }

  lemma MintNonFungibleBodyShape(x: MintNft)
    ensures BodyCodec(TypeOf(MintNonFungible(x))).fits(MintNonFungible(x)) <==> MintNftCodec().fits(x)
    ensures BodyCodec(TypeOf(MintNonFungible(x))).enc(MintNonFungible(x)) == MintNftCodec().enc(x)
  {
    hide *;
    MintNonFungibleBodyIs(x);
    assert BodyCodec(12) == MintNonFungibleBody() by { BodyTags(); }
  }

  lemma BurnNonFungibleBodyIs(x: BurnNft)
    ensures BurnNonFungibleBody().fits(BurnNonFungible(x)) <==> BurnNftCodec().fits(x)
    ensures BurnNonFungibleBody().enc(BurnNonFungible(x)) == BurnNftCodec().enc(x)
    ensures TypeOf(BurnNonFungible(x)) == 13
  {
    hide BurnNftCodec;
  }

  lemma BurnNonFungibleBodyShape(x: BurnNft)
    ensures BodyCodec(TypeOf(BurnNonFungible(x))).fits(BurnNonFungible(x)) <==> BurnNftCodec().fits(x)
    ensures BodyCodec(TypeOf(BurnNonFungible(x))).enc(BurnNonFungible(x)) == BurnNftCodec().enc(x)
  {
    hide *;
    BurnNonFungibleBodyIs(x);
    assert BodyCodec(13) == BurnNonFungibleBody() by { BodyTags(); }
  }

  lemma BurnNonFungibleGasPayerBodyIs(x: BurnNftGasPayer)
    ensures BurnNonFungibleGasPayerBody().fits(BurnNonFungibleGasPayer(x)) <==> BurnNftGasPayerCodec().fits(x)
    ensures BurnNonFungibleGasPayerBody().enc(BurnNonFungibleGasPayer(x)) == BurnNftGasPayerCodec().enc(x)
    ensures TypeOf(BurnNonFungibleGasPayer(x)) == 14
  {
    hide BurnNftGasPayerCodec;
  }

  lemma BurnNonFungibleGasPayerBodyShape(x: BurnNftGasPayer)
    ensures BodyCodec(TypeOf(BurnNonFungibleGasPayer(x))).fits(BurnNonFungibleGasPayer(x)) <==> BurnNftGasPayerCodec().fits(x)
    ensures BodyCodec(TypeOf(BurnNonFungibleGasPayer(x))).enc(BurnNonFungibleGasPayer(x)) == BurnNftGasPayerCodec().enc(x)
  {
    hide *;
    BurnNonFungibleGasPayerBodyIs(x);
    assert BodyCodec(14) == BurnNonFungibleGasPayerBody() by { BodyTags(); }
  }

  lemma PhantasmaBodyIs(x: PhantasmaMsg)
    ensures PhantasmaBody().fits(Phantasma(x)) <==> PhantasmaMsgCodec().fits(x)
    ensures PhantasmaBody().enc(Phantasma(x)) == PhantasmaMsgCodec().enc(x)
    ensures TypeOf(Phantasma(x)) == 15
  {
    hide PhantasmaMsgCodec;
  }

  lemma PhantasmaBodyShape(x: PhantasmaMsg)
    ensures BodyCodec(TypeOf(Phantasma(x))).fits(Phantasma(x)) <==> PhantasmaMsgCodec().fits(x)
    ensures BodyCodec(TypeOf(Phantasma(x))).enc(Phantasma(x)) == PhantasmaMsgCodec().enc(x)
  {
    hide *;
    PhantasmaBodyIs(x);
    assert BodyCodec(15) == PhantasmaBody() by { BodyTags(); }
  }

  lemma PhantasmaRawBodyIs(x: seq<Byte>)
    ensures PhantasmaRawBody().fits(PhantasmaRaw(x)) <==> Counted().fits(x)
    ensures PhantasmaRawBody().enc(PhantasmaRaw(x)) == Counted().enc(x)
    ensures TypeOf(PhantasmaRaw(x)) == 16
  {
    hide Counted;
  }

  lemma PhantasmaRawBodyShape(x: seq<Byte>)
    ensures BodyCodec(TypeOf(PhantasmaRaw(x))).fits(PhantasmaRaw(x)) <==> Counted().fits(x)
    ensures BodyCodec(TypeOf(PhantasmaRaw(x))).enc(PhantasmaRaw(x)) == Counted().enc(x)
  {
    hide *;
    PhantasmaRawBodyIs(x);
    assert BodyCodec(16) == PhantasmaRawBody() by { BodyTags(); }
  }

  /** Type bytes whose payload holds no variable-length amount. */
  predicate NoAmount(tag: U8) {
    tag != 2 && tag != 9 && tag != 10 && tag != 11
  }

  lemma BodyLawful(tag: U8)
    ensures Lawful(BodyCodec(tag)) && forall b :: BodyCodec(tag).fits(b) ==> TypeOf(b) == tag
    ensures NoAmount(tag) ==> Canonical(BodyCodec(tag))
  {
    hide Lawful, Canonical, CallBody, CallMultiBody, TradeBody, TransferFungibleBody, TransferFungibleGasPayerBody, TransferNonFungibleSingleBody, TransferNonFungibleSingleGasPayerBody, TransferNonFungibleMultiBody, TransferNonFungibleMultiGasPayerBody, MintFungibleBody, BurnFungibleBody, BurnFungibleGasPayerBody, MintNonFungibleBody, BurnNonFungibleBody, BurnNonFungibleGasPayerBody, PhantasmaBody, PhantasmaRawBody;
    match tag
    case 0 => CallBodyLawful();
    case 1 => CallMultiBodyLawful();
    case 2 => TradeBodyLawful();
    case 3 => TransferFungibleBodyLawful();
    case 4 => TransferFungibleGasPayerBodyLawful();
    case 5 => TransferNonFungibleSingleBodyLawful();
    case 6 => TransferNonFungibleSingleGasPayerBodyLawful();
    case 7 => TransferNonFungibleMultiBodyLawful();
    case 8 => TransferNonFungibleMultiGasPayerBodyLawful();
    case 9 => MintFungibleBodyLawful();
    case 10 => BurnFungibleBodyLawful();
    case 11 => BurnFungibleGasPayerBodyLawful();
    case 12 => MintNonFungibleBodyLawful();
    case 13 => BurnNonFungibleBodyLawful();
    case 14 => BurnNonFungibleGasPayerBodyLawful();
    case 15 => PhantasmaBodyLawful();
    case 16 => PhantasmaRawBodyLawful();
    case _ => RefusedLawful<TxBody>();
  }
}
