/** Messages and signed envelopes: round trips, refusal of truncation, and the size of an envelope
    known before any key is. */
module Envelope {
  import opened Wrappers
  import opened Words64
  import opened Codecs
  import opened WireFormat
  import opened IntX
  import opened Messages
  import opened CallCodec
  import opened MessageCodecs
  import opened BodyCodecs

  // ---- the message --------------------------------------------------------------------------

  type Header = (U8, (I64, (U64, (U64, (Bytes32, SmallString)))))

  function HeaderCodec(): Codec<Header> {
    Pair(U8Codec(), Pair(I64Codec(), Pair(U64Codec(), Pair(U64Codec(), Pair(Bytes32Codec(), SmallStringCodec())))))
  }

  function ToTx(p: (Header, TxBody)): TxMsg {
    TxMsg(p.0.1.0, p.0.1.1.0, p.0.1.1.1.0, p.0.1.1.1.1.0, p.0.1.1.1.1.1, p.1)
  }

  function OfTx(m: TxMsg): (Header, TxBody) {
    ((TypeOf(m.body), (m.expiry, (m.maxGas, (m.maxData, (m.gasFrom, m.payload))))), m.body)
  }

  function TxParts(): Codec<(Header, TxBody)> {
    Chain(HeaderCodec(), (h: Header) => BodyCodec(h.0), 0)
  }

  function TxCodec(): Codec<TxMsg> {
    Mapped(TxParts(), ToTx, OfTx, (m: TxMsg) => BodyCodec(TypeOf(m.body)).fits(m.body))
  }

  lemma HeaderLawful()
    ensures Lawful(HeaderCodec()) && Canonical(HeaderCodec()) && forall h :: HeaderCodec().fits(h)
  {
    hide Lawful, Canonical, HeaderCodec;
    HeaderKeepsLaws();
    HeaderShape();
  }

  lemma HeaderKeepsLaws()
    ensures Lawful(HeaderCodec()) && Canonical(HeaderCodec())
  {
    hide Lawful, Canonical, Pair, Bytes32Codec, U8Codec, U64Codec, I64Codec, SmallStringCodec;
    FieldsLawful();
    var a := Pair(Bytes32Codec(), SmallStringCodec());
    var b := Pair(U64Codec(), a);
    var c := Pair(U64Codec(), b);
    PairLawful(Bytes32Codec(), SmallStringCodec());
    PairLawful(U64Codec(), a);
    PairLawful(U64Codec(), b);
    PairLawful(I64Codec(), c);
    PairLawful(U8Codec(), Pair(I64Codec(), c));
  }

  lemma HeaderShape()
    ensures forall h :: HeaderCodec().fits(h)
  {
    hide Pair, Bytes32Codec, U8Codec, U64Codec, I64Codec, SmallStringCodec;
    FieldShapes();
    var a := Pair(Bytes32Codec(), SmallStringCodec());
    var b := Pair(U64Codec(), a);
    var c := Pair(U64Codec(), b);
    PairShape(Bytes32Codec(), SmallStringCodec());
    PairShape(U64Codec(), a);
    PairShape(U64Codec(), b);
    PairShape(I64Codec(), c);
    PairShape(U8Codec(), Pair(I64Codec(), c));
  }

  lemma TxPartsLawful()
    ensures Lawful(TxParts())
    ensures ChainLinks(HeaderCodec(), (h: Header) => BodyCodec(h.0), 0)
  {
    hide Lawful, HeaderCodec, BodyCodec;
    HeaderLawful();
    forall h: Header ensures Lawful(BodyCodec(h.0)) { BodyLawful(h.0); }
    ChainLawful(HeaderCodec(), (h: Header) => BodyCodec(h.0), 0);
  }

  lemma TxLawful()
    ensures Lawful(TxCodec())
  {
    hide Lawful, HeaderCodec, BodyCodec;
    TxPartsLawful();
    HeaderLawful();
    forall p: (Header, TxBody) | TxParts().fits(p) ensures BodyCodec(TypeOf(p.1)).fits(p.1) { BodyLawful(p.0.0); }
    MappedLawful(TxParts(), ToTx, OfTx, (m: TxMsg) => BodyCodec(TypeOf(m.body)).fits(m.body));
  }

  /** Re-serializing a message that was read gives back the bytes it was read from, unless its type
      holds a variable-length amount (see IntX.CanonicalExactly for those). */
  lemma ReserializesExactly(s: seq<Byte>)
    requires TxCodec().dec(s).Some? && NoAmount(TypeOf(TxCodec().dec(s).value.0.body))
    ensures TxCodec().dec(s).value.1 <= |s| && TxCodec().enc(TxCodec().dec(s).value.0) == s[..TxCodec().dec(s).value.1]
  {
    hide Lawful, HeaderCodec, BodyCodec, Chain;
    TxImage(s);
    var (p, k) := TxParts().dec(s).value;
    TxPartsCanonical(s);
    ChainShape(HeaderCodec(), (h: Header) => BodyCodec(h.0), 0);
  }

  lemma TxImage(s: seq<Byte>)
    requires TxCodec().dec(s).Some?
    ensures TxParts().dec(s).Some? && TxCodec().dec(s) == Some((ToTx(TxParts().dec(s).value.0), TxParts().dec(s).value.1))
    ensures forall m :: TxCodec().enc(m) == TxParts().enc(OfTx(m))
  {
    hide TxParts;
  }

  lemma TxPartsCanonical(s: seq<Byte>)
    requires TxParts().dec(s).Some? && NoAmount(TypeOf(TxParts().dec(s).value.0.1))
    ensures TxParts().dec(s).value.1 <= |s| && TxParts().enc(TxParts().dec(s).value.0) == s[..TxParts().dec(s).value.1]
    ensures TypeOf(TxParts().dec(s).value.0.1) == TxParts().dec(s).value.0.0.0
  {
    hide Lawful, Canonical, HeaderCodec, BodyCodec, ChainDec;
    TxPartsLawful();
    HeaderLawful();
    ChainParts(HeaderCodec(), (h: Header) => BodyCodec(h.0), 0, s);
    BodyLawful(HeaderCodec().dec(s).value.0.0);
    ChainCanonicalAt(HeaderCodec(), (h: Header) => BodyCodec(h.0), 0, s);
  }

  // ---- what a well-formed message is --------------------------------------------------------

  predicate Countable<T>(s: seq<T>) {
    |s| < 0x8000_0000
  }

  ghost predicate WellFormed(body: TxBody) {
    match body
    case Call(c) => CallFits(c)
    case CallMulti(cs) => Countable(cs) && forall i :: 0 <= i < |cs| ==> CallFits(cs[i])
    case Trade(t) =>
      && Countable(t.transferF) && Countable(t.transferN) && Countable(t.mintF) && Countable(t.burnF) && Countable(t.mintN) && Countable(t.burnN)
      && (forall i :: 0 <= i < |t.mintF| ==> InInt256(t.mintF[i].amount))
      && (forall i :: 0 <= i < |t.burnF| ==> InInt256(t.burnF[i].amount))
      && (forall i :: 0 <= i < |t.mintN| ==> Countable(t.mintN[i].rom) && Countable(t.mintN[i].ram))
    case TransferNonFungibleMulti(t) => Countable(t.instanceIds)
    case TransferNonFungibleMultiGasPayer(t) => Countable(t.instanceIds)
    case MintFungible(t) => InInt256(t.amount)
    case BurnFungible(t) => InInt256(t.amount)
    case BurnFungibleGasPayer(t) => InInt256(t.amount)
    case MintNonFungible(t) => Countable(t.rom) && Countable(t.ram)
    case Phantasma(t) => Countable(t.script)
    case PhantasmaRaw(t) => Countable(t)
    case _ => true
  }

  /** The conditions above are all a message needs to be written and read back. */
  lemma FitsWhenWellFormed(body: TxBody)
    ensures BodyCodec(TypeOf(body)).fits(body) <==> WellFormed(body)
  {
    hide WellFormed, BodyCodec;
    match body
    case Call(_) | CallMulti(_) | Trade(_) | Phantasma(_) | PhantasmaRaw(_) => CallsFit(body);
    case MintFungible(_) | BurnFungible(_) | BurnFungibleGasPayer(_) | MintNonFungible(_) | BurnNonFungible(_)
       | BurnNonFungibleGasPayer(_) => MintsAndBurnsFit(body);
    case _ => TransfersFit(body);
  }

  lemma CallsFit(body: TxBody)
    requires body.Call? || body.CallMulti? || body.Trade? || body.Phantasma? || body.PhantasmaRaw?
    ensures BodyCodec(TypeOf(body)).fits(body) <==> WellFormed(body)
  {
    hide BodyCodec, InInt256, CallFits, PhantasmaMsgCodec, TradeCodec, CallsCodec, TxMsgCallCodec, Counted, TypeOf;
    match body
    case Call(x) =>
      CallBodyShape(x);
      CallShape();
    case CallMulti(x) =>
      CallMultiBodyShape(x);
      CallsShape(x);
    case Trade(x) => TradeFits(x);
    case Phantasma(x) =>
      PhantasmaBodyShape(x);
      PhantasmaMsgShape();
    case PhantasmaRaw(x) =>
      PhantasmaRawBodyShape(x);
      FieldShapes();
  }

  lemma TradeFits(t: TradeMsg)
    ensures BodyCodec(TypeOf(Trade(t))).fits(Trade(t)) <==> WellFormed(Trade(t))
  {
    hide BodyCodec, InInt256, TradeCodec, TypeOf;
    TradeBodyShape(t);
    TradeShape(t);
  }

  lemma TransfersFit(body: TxBody)
    requires body.TransferFungible? || body.TransferFungibleGasPayer? || body.TransferNonFungibleSingle? || body.TransferNonFungibleSingleGasPayer? || body.TransferNonFungibleMulti? || body.TransferNonFungibleMultiGasPayer?
    ensures BodyCodec(TypeOf(body)).fits(body) <==> WellFormed(body)
  {
    hide BodyCodec, InInt256, CallFits, TransferFtCodec, TransferFtGasPayerCodec, TransferNftSingleCodec, TransferNftSingleGasPayerCodec,
         TransferNftMultiCodec, TransferNftMultiGasPayerCodec, MintFtCodec, BurnFtCodec, BurnFtGasPayerCodec, MintNftCodec,
         BurnNftCodec, BurnNftGasPayerCodec, PhantasmaMsgCodec, TradeCodec, CallsCodec, TxMsgCallCodec, Counted;
    match body
    case TransferFungible(x) =>
      TransferFungibleBodyShape(x);
      TransferFtShape();
    case TransferFungibleGasPayer(x) =>
      TransferFungibleGasPayerBodyShape(x);
      TransferFtGasPayerShape();
    case TransferNonFungibleSingle(x) =>
      TransferNonFungibleSingleBodyShape(x);
      TransferNftSingleShape();
    case TransferNonFungibleSingleGasPayer(x) =>
      TransferNonFungibleSingleGasPayerBodyShape(x);
      TransferNftSingleGasPayerShape();
    case TransferNonFungibleMulti(x) =>
      TransferNonFungibleMultiBodyShape(x);
      TransferNftMultiShape();
    case TransferNonFungibleMultiGasPayer(x) =>
      TransferNonFungibleMultiGasPayerBodyShape(x);
      TransferNftMultiGasPayerShape();
  }

  lemma MintsAndBurnsFit(body: TxBody)
    requires body.MintFungible? || body.BurnFungible? || body.BurnFungibleGasPayer? || body.MintNonFungible? || body.BurnNonFungible? || body.BurnNonFungibleGasPayer?
    ensures BodyCodec(TypeOf(body)).fits(body) <==> WellFormed(body)
  {
    hide BodyCodec, InInt256, CallFits, TransferFtCodec, TransferFtGasPayerCodec, TransferNftSingleCodec, TransferNftSingleGasPayerCodec,
         TransferNftMultiCodec, TransferNftMultiGasPayerCodec, MintFtCodec, BurnFtCodec, BurnFtGasPayerCodec, MintNftCodec,
         BurnNftCodec, BurnNftGasPayerCodec, PhantasmaMsgCodec, TradeCodec, CallsCodec, TxMsgCallCodec, Counted;
    match body
    case MintFungible(x) =>
      MintFungibleBodyShape(x);
      MintFtShape();
    case BurnFungible(x) =>
      BurnFungibleBodyShape(x);
      BurnFtShape();
    case BurnFungibleGasPayer(x) =>
      BurnFungibleGasPayerBodyShape(x);
      BurnFtGasPayerShape();
    case MintNonFungible(x) =>
      MintNonFungibleBodyShape(x);
      MintNftShape();
    case BurnNonFungible(x) =>
      BurnNonFungibleBodyShape(x);
      BurnNftShape();
    case BurnNonFungibleGasPayer(x) =>
      BurnNonFungibleGasPayerBodyShape(x);
      BurnNftGasPayerShape();
  }

  lemma CallShape()
    ensures forall c :: TxMsgCallCodec().fits(c) <==> CallFits(c)
  {
    hide CallFits;
  }

  lemma CallsShape(cs: seq<TxMsgCall>)
    ensures CallsCodec().fits(cs) <==> Countable(cs) && forall i :: 0 <= i < |cs| ==> CallFits(cs[i])
  {
    hide CallFits, TxMsgCallCodec;
    CallShape();
    ArrayShape(TxMsgCallCodec(), 12, cs);
  }

  lemma TradeShape(t: TradeMsg)
    ensures TradeCodec().fits(t) <==> WellFormed(Trade(t))
  {
    hide InInt256, Pair, Struct, ArrayOf, TransferFtGasPayerCodec, TransferNftSingleGasPayerCodec, MintFtCodec, BurnFtGasPayerCodec, MintNftCodec, BurnNftGasPayerCodec;
    TransferFtGasPayerShape();
    TransferNftSingleGasPayerShape();
    MintFtShape();
    BurnFtGasPayerShape();
    MintNftShape();
    BurnNftGasPayerShape();
    ArrayShape(TransferFtGasPayerCodec(), MIN_TRANSFER_F, t.transferF);
    ArrayShape(TransferNftSingleGasPayerCodec(), MIN_TRANSFER_N, t.transferN);
    ArrayShape(MintFtCodec(), MIN_MINT_F, t.mintF);
    ArrayShape(BurnFtGasPayerCodec(), MIN_BURN_F, t.burnF);
    ArrayShape(MintNftCodec(), MIN_MINT_N, t.mintN);
    ArrayShape(BurnNftGasPayerCodec(), MIN_BURN_N, t.burnN);
    var mintN, burnN := ArrayOf(MintNftCodec(), MIN_MINT_N), ArrayOf(BurnNftGasPayerCodec(), MIN_BURN_N);
    var mintF, burnF := ArrayOf(MintFtCodec(), MIN_MINT_F), ArrayOf(BurnFtGasPayerCodec(), MIN_BURN_F);
    PairShape(mintN, burnN);
    PairShape(burnF, Pair(mintN, burnN));
    PairShape(mintF, Pair(burnF, Pair(mintN, burnN)));
    PairShape(ArrayOf(TransferNftSingleGasPayerCodec(), MIN_TRANSFER_N), TradeTail());
    PairShape(ArrayOf(TransferFtGasPayerCodec(), MIN_TRANSFER_F), Pair(ArrayOf(TransferNftSingleGasPayerCodec(), MIN_TRANSFER_N), TradeTail()));
    StructShape(TradeFields(), ToTrade, OfTrade);
  }

  // ---- witnesses ----------------------------------------------------------------------------

  /** The number of witnesses the message itself fixes; None for the four types whose witness set the
      caller chooses. */
  function RequiredWitnessCount(body: TxBody): Option<U32> {
    match body
    case TransferFungible(_) | TransferNonFungibleSingle(_) | TransferNonFungibleMulti(_) | MintFungible(_) | BurnFungible(_)
       | MintNonFungible(_) | BurnNonFungible(_) => Some(1)
    case TransferFungibleGasPayer(_) | TransferNonFungibleSingleGasPayer(_) | TransferNonFungibleMultiGasPayer(_)
       | BurnFungibleGasPayer(_) | BurnNonFungibleGasPayer(_) => Some(2)
    case PhantasmaRaw(_) => Some(0)
    case _ => None
  }

  /** The account that owns the assets of a gas-payer message. */
  function TryGetGasPayerFrom(body: TxBody): Option<Bytes32> {
    match body
    case TransferFungibleGasPayer(t) => Some(t.payer)
    case TransferNonFungibleSingleGasPayer(t) => Some(t.payer)
    case TransferNonFungibleMultiGasPayer(t) => Some(t.payer)
    case BurnFungibleGasPayer(t) => Some(t.payer)
    case BurnNonFungibleGasPayer(t) => Some(t.payer)
    case _ => None
  }

  /** Exactly the doubly signed types name a second signer. */
  lemma SecondSigner(body: TxBody)
    ensures TryGetGasPayerFrom(body).Some? <==> RequiredWitnessCount(body) == Some(2)
  {
  }

  function WitnessListCodec(): Codec<seq<Witness>> {
    ArrayOf(WitnessCodec(), 96)
  }

  function NoWitnesses(): Codec<seq<Witness>> {
    Variant(Raw(0), (s: seq<Byte>) => [], (ws: seq<Witness>) => if ws == [] then Some([]) else None)
  }

  function SoleWitness(gasFrom: Bytes32): Codec<seq<Witness>> {
    Variant(Bytes64Codec(), (s: Bytes64) => SignedBy(gasFrom, s), (ws: seq<Witness>) => SoleSignature(gasFrom, ws))
  }

  function SignedBy(gasFrom: Bytes32, s: Bytes64): seq<Witness> {
    [Witness(gasFrom, s)]
  }

  function SoleSignature(gasFrom: Bytes32, ws: seq<Witness>): Option<Bytes64> {
    if |ws| == 1 && ws[0].address == gasFrom then Some(ws[0].signature) else None
  }

  function TwoWitnesses(gasFrom: Bytes32, owner: Bytes32): Codec<seq<Witness>> {
    Variant(TwoSignatures(), (s: (Bytes64, Bytes64)) => SignedByBoth(gasFrom, owner, s), (ws: seq<Witness>) => BothSignatures(gasFrom, owner, ws))
  }

  function TwoSignatures(): Codec<(Bytes64, Bytes64)> {
    Pair(Bytes64Codec(), Bytes64Codec())
  }

  function SignedByBoth(gasFrom: Bytes32, owner: Bytes32, s: (Bytes64, Bytes64)): seq<Witness> {
    [Witness(gasFrom, s.0), Witness(owner, s.1)]
  }

  function BothSignatures(gasFrom: Bytes32, owner: Bytes32, ws: seq<Witness>): Option<(Bytes64, Bytes64)> {
    if |ws| == 2 && ws[0].address == gasFrom && ws[1].address == owner then Some((ws[0].signature, ws[1].signature)) else None
  }

  /** The witness layout of a message: a counted array, one or two bare signatures, or nothing. */
  function WitnessesCodec(msg: TxMsg): Codec<seq<Witness>> {
    match RequiredWitnessCount(msg.body)
    case None => WitnessListCodec()
    case Some(n) =>
      if n == 0 then NoWitnesses()
      else if n == 1 || TryGetGasPayerFrom(msg.body).None? then SoleWitness(msg.gasFrom)
      else TwoWitnesses(msg.gasFrom, TryGetGasPayerFrom(msg.body).value)
  }

  /** The witnesses a message of this type can carry. */
  predicate WitnessesFit(msg: TxMsg, ws: seq<Witness>) {
    match RequiredWitnessCount(msg.body)
    case None => |ws| < 0x8000_0000
    case Some(n) =>
      && |ws| == n && (n >= 1 ==> ws[0].address == msg.gasFrom)
      && (n == 2 ==> Some(ws[1].address) == TryGetGasPayerFrom(msg.body))
  }

  lemma ListLawful()
    ensures Lawful(WitnessListCodec()) && Lawful(NoWitnesses())
    ensures Canonical(WitnessListCodec()) && Canonical(NoWitnesses())
  {
    hide Lawful, Canonical, WitnessCodec;
    WitnessLawful();
    ArrayLawful(WitnessCodec(), 96);
    RawLawful(0);
    VariantLawful(Raw(0), (s: seq<Byte>) => [], (ws: seq<Witness>) => if ws == [] then Some([]) else None);
  }

  lemma SoleLawful(gasFrom: Bytes32)
    ensures Lawful(SoleWitness(gasFrom)) && Canonical(SoleWitness(gasFrom))
  {
    hide Lawful, Canonical, Bytes64Codec;
    FieldsLawful();
    forall ws: seq<Witness> | SoleSignature(gasFrom, ws).Some? ensures SignedBy(gasFrom, SoleSignature(gasFrom, ws).value) == ws {
    }
    VariantLawful(Bytes64Codec(), (s: Bytes64) => SignedBy(gasFrom, s), (ws: seq<Witness>) => SoleSignature(gasFrom, ws));
  }

  lemma TwoLawful(gasFrom: Bytes32, owner: Bytes32)
    ensures Lawful(TwoWitnesses(gasFrom, owner)) && Canonical(TwoWitnesses(gasFrom, owner))
  {
    hide Lawful, Canonical, Bytes64Codec, Pair;
    FieldsLawful();
    PairLawful(Bytes64Codec(), Bytes64Codec());
    forall ws: seq<Witness> | BothSignatures(gasFrom, owner, ws).Some?
      ensures SignedByBoth(gasFrom, owner, BothSignatures(gasFrom, owner, ws).value) == ws
    {
    }
    VariantLawful(TwoSignatures(), (s: (Bytes64, Bytes64)) => SignedByBoth(gasFrom, owner, s), (ws: seq<Witness>) => BothSignatures(gasFrom, owner, ws));
  }

  lemma WitnessesLawful(msg: TxMsg)
    ensures Lawful(WitnessesCodec(msg)) && Canonical(WitnessesCodec(msg))
  {
    hide Lawful, Canonical, WitnessListCodec, NoWitnesses, SoleWitness, TwoWitnesses;
    ListLawful();
    SoleLawful(msg.gasFrom);
    if TryGetGasPayerFrom(msg.body).Some? {
      TwoLawful(msg.gasFrom, TryGetGasPayerFrom(msg.body).value);
    }
  }

  lemma WitnessImage(w: Witness)
    ensures WitnessCodec().enc(w) == w.address + w.signature
  {
    hide Pair, Struct;
    PairShape(Bytes32Codec(), Bytes64Codec());
    StructShape(WitnessFields(), ToWitness, OfWitness);
  }

  lemma {:induction false} WitnessBytes(ws: seq<Witness>)
    ensures |EncAll(WitnessCodec(), ws)| == 96 * |ws|
  {
    hide WitnessCodec;
    if ws != [] {
      WitnessBytes(ws[..|ws| - 1]);
      WitnessImage(ws[|ws| - 1]);
    }
  }

  lemma ListShape(ws: seq<Witness>)
    ensures WitnessListCodec().fits(ws) <==> |ws| < 0x8000_0000
    ensures |WitnessListCodec().enc(ws)| == 4 + 96 * |ws|
  {
    hide EncAll, LittleEndian, WitnessCodec;
    WitnessBytes(ws);
    WitnessShape();
  }

  lemma SoleShape(gasFrom: Bytes32, ws: seq<Witness>)
    ensures SoleWitness(gasFrom).fits(ws) <==> |ws| == 1 && ws[0].address == gasFrom
    ensures SoleWitness(gasFrom).fits(ws) ==> |SoleWitness(gasFrom).enc(ws)| == 64
  {
  }

  lemma TwoShape(gasFrom: Bytes32, owner: Bytes32, ws: seq<Witness>)
    ensures TwoWitnesses(gasFrom, owner).fits(ws) <==> |ws| == 2 && ws[0].address == gasFrom && ws[1].address == owner
    ensures TwoWitnesses(gasFrom, owner).fits(ws) ==> |TwoWitnesses(gasFrom, owner).enc(ws)| == 128
  {
  }

  function WitnessWidth(msg: TxMsg, count: nat): nat {
    match RequiredWitnessCount(msg.body)
    case None => 4 + 96 * count
    case Some(n) => 64 * (n as nat)
  }

  /** What fits, and how long the image of the witnesses is. */
  lemma WitnessesShape(msg: TxMsg, ws: seq<Witness>)
    ensures WitnessesCodec(msg).fits(ws) <==> WitnessesFit(msg, ws)
    ensures WitnessesFit(msg, ws) ==> |WitnessesCodec(msg).enc(ws)| == WitnessWidth(msg, |ws|)
  {
    hide WitnessListCodec, SoleWitness, TwoWitnesses;
    ListShape(ws);
    SoleShape(msg.gasFrom, ws);
    SecondSigner(msg.body);
    if TryGetGasPayerFrom(msg.body).Some? {
      TwoShape(msg.gasFrom, TryGetGasPayerFrom(msg.body).value, ws);
    }
  }

  // ---- the signed envelope ------------------------------------------------------------------

  function SignedParts(): Codec<(TxMsg, seq<Witness>)> {
    Chain(TxCodec(), (m: TxMsg) => WitnessesCodec(m), 0)
  }

  function ToSigned(p: (TxMsg, seq<Witness>)): SignedTxMsg {
    SignedTxMsg(p.0, p.1)
  }

  function OfSigned(m: SignedTxMsg): (TxMsg, seq<Witness>) {
    (m.msg, m.witnesses)
  }

  function SignedCodec(): Codec<SignedTxMsg> {
    Struct(SignedParts(), ToSigned, OfSigned)
  }

  lemma SignedLawful()
    ensures Lawful(SignedCodec()) && ChainLinks(TxCodec(), (m: TxMsg) => WitnessesCodec(m), 0)
  {
    hide Lawful, TxCodec, WitnessesCodec;
    TxLawful();
    forall m: TxMsg ensures Lawful(WitnessesCodec(m)) { WitnessesLawful(m); }
    ChainLawful(TxCodec(), (m: TxMsg) => WitnessesCodec(m), 0);
    StructLawful(SignedParts(), ToSigned, OfSigned);
  }

  lemma SignedShape(m: SignedTxMsg)
    ensures SignedCodec().enc(m) == TxCodec().enc(m.msg) + WitnessesCodec(m.msg).enc(m.witnesses)
    ensures SignedCodec().fits(m) <==> WellFormedSigned(m)
  {
    hide TxCodec, WitnessesCodec, WellFormed, WitnessesFit, BodyCodec, Chain, Struct;
    ChainShape(TxCodec(), (m: TxMsg) => WitnessesCodec(m), 0);
    StructShape(SignedParts(), ToSigned, OfSigned);
    FitsWhenWellFormed(m.msg.body);
    TxFits(m.msg);
    WitnessesShape(m.msg, m.witnesses);
  }

  ghost predicate WellFormedSigned(m: SignedTxMsg) {
    WellFormed(m.msg.body) && WitnessesFit(m.msg, m.witnesses)
  }

  function SerializeTx(msg: TxMsg): seq<Byte> {
    TxCodec().enc(msg)
  }

  /** The message and the part of the bytes a signature is made over. */
  function ParseSigned(s: seq<Byte>): Option<(SignedTxMsg, seq<Byte>, nat)> {
    match SignedCodec().dec(s)
    case None => None
    case Some((m, n)) =>
      match TxCodec().dec(s) { case None => None case Some((_, k)) => if k <= |s| then Some((m, s[..k], n)) else None }
  }

  /** Reading a written envelope gives back the message and its witnesses, takes exactly the image
      whatever follows it, and the signed portion is the serialized message. */
  lemma EnvelopeRoundTrip(m: SignedTxMsg, rest: seq<Byte>)
    requires WellFormedSigned(m)
    ensures ParseSigned(SignedCodec().enc(m) + rest) == Some((m, SerializeTx(m.msg), |SignedCodec().enc(m)|))
  {
    hide Lawful, TxCodec, SignedCodec, WitnessesCodec, WellFormed, BodyCodec;
    SignedShape(m);
    FitsWhenWellFormed(m.msg.body);
    TxFits(m.msg);
    SignedLawful();
    TxLawful();
    var head, tail := TxCodec().enc(m.msg), WitnessesCodec(m.msg).enc(m.witnesses);
    ReadsBack(SignedCodec(), m, rest);
    assert head + tail + rest == head + (tail + rest);
    ReadsBack(TxCodec(), m.msg, tail + rest);
    assert (head + (tail + rest))[..|head|] == head;
  }

  lemma TxFits(m: TxMsg)
    ensures TxCodec().fits(m) <==> BodyCodec(TypeOf(m.body)).fits(m.body)
  {
    hide BodyCodec;
  }

  lemma MessageRoundTrip(m: TxMsg, rest: seq<Byte>)
    requires WellFormed(m.body)
    ensures TxCodec().dec(SerializeTx(m) + rest) == Some((m, |SerializeTx(m)|))
  {
    hide Lawful, TxCodec, WellFormed;
    FitsWhenWellFormed(m.body);
    TxFits(m);
    TxLawful();
    ReadsBack(TxCodec(), m, rest);
  }

  /** Every strict prefix of an envelope or of a message is refused. */
  lemma TruncationRefused(m: SignedTxMsg, k: nat)
    requires WellFormedSigned(m)
    ensures k < |SignedCodec().enc(m)| ==> SignedCodec().dec(SignedCodec().enc(m)[..k]) == None
    ensures k < |SerializeTx(m.msg)| ==> TxCodec().dec(SerializeTx(m.msg)[..k]) == None
  {
    hide Lawful, Faithful, TxCodec, SignedCodec, WellFormed, BodyCodec, WitnessesFit;
    SignedShape(m);
    FitsWhenWellFormed(m.msg.body);
    TxFits(m.msg);
    SignedLawful();
    TxLawful();
    LawfulIsFaithful(SignedCodec());
    LawfulIsFaithful(TxCodec());
    if k < |SignedCodec().enc(m)| { PrefixRefused(SignedCodec(), m, k); }
    if k < |SerializeTx(m.msg)| { PrefixRefused(TxCodec(), m.msg, k); }
  }

  /** The envelope size of a message and a witness count, on 32 bits. The count is used only by the
      types that carry a witness array. */
  function EnvelopeBytes(msg: TxMsg, witnessCount: U32): U32 {
    var messageBytes := |SerializeTx(msg)|;
    match RequiredWitnessCount(msg.body)
    case Some(required) =>
      if msg.body.PhantasmaRaw? then messageBytes % 0x1_0000_0000
      else (messageBytes + 64 * (required as nat)) % 0x1_0000_0000
    case None => (messageBytes + 4 + 96 * (witnessCount as nat)) % 0x1_0000_0000
  }

  /** The size computed without a key is the size of every envelope of that message with that many
      witnesses, as far as 32 bits go. */
  lemma EnvelopeSize(m: SignedTxMsg)
    requires WellFormedSigned(m)
    ensures EnvelopeBytes(m.msg, |m.witnesses|) == |SignedCodec().enc(m)| % 0x1_0000_0000
  {
    hide TxCodec, WitnessesCodec, SignedCodec, WellFormed;
    SignedShape(m);
    WitnessesShape(m.msg, m.witnesses);
  }

  /** The count plays no part for the types that fix their own witnesses. */
  lemma CountIgnored(msg: TxMsg, count: U32, other: U32)
    ensures RequiredWitnessCount(msg.body).Some? ==> EnvelopeBytes(msg, count) == EnvelopeBytes(msg, other)
  {
  }
}
