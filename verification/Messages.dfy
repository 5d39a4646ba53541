/** Transaction messages: the header every type carries and seventeen payloads. */
module Messages {
  import opened Words64
  import opened Codecs
  import opened WireFormat

  /** One argument section: a register offset below zero, or bytes. */
  datatype MsgCallArgs = MsgCallArgs(registerOffset: I32, args: seq<Byte>)

  /** A call with plain arguments, or with argument sections. */
  datatype TxMsgCall = TxMsgCall(moduleId: U32, methodId: U32, args: seq<Byte>, sections: seq<MsgCallArgs>)

  datatype TransferFt = TransferFt(to: Bytes32, tokenId: U64, amount: U64)
  datatype TransferFtGasPayer = TransferFtGasPayer(to: Bytes32, payer: Bytes32, tokenId: U64, amount: U64)
  datatype TransferNftSingle = TransferNftSingle(to: Bytes32, tokenId: U64, instanceId: U64)
  datatype TransferNftSingleGasPayer = TransferNftSingleGasPayer(to: Bytes32, payer: Bytes32, tokenId: U64, instanceId: U64)
  datatype TransferNftMulti = TransferNftMulti(to: Bytes32, tokenId: U64, instanceIds: seq<U64>)
  datatype TransferNftMultiGasPayer = TransferNftMultiGasPayer(to: Bytes32, payer: Bytes32, tokenId: U64, instanceIds: seq<U64>)
  datatype MintFt = MintFt(tokenId: U64, amount: int, to: Bytes32)
  datatype BurnFt = BurnFt(tokenId: U64, amount: int)
  datatype BurnFtGasPayer = BurnFtGasPayer(tokenId: U64, amount: int, payer: Bytes32)
  datatype MintNft = MintNft(tokenId: U64, to: Bytes32, seriesId: U32, rom: seq<Byte>, ram: seq<Byte>)
  datatype BurnNft = BurnNft(tokenId: U64, instanceId: U64)
  datatype BurnNftGasPayer = BurnNftGasPayer(tokenId: U64, payer: Bytes32, instanceId: U64)

  datatype TradeMsg = TradeMsg(
    transferF: seq<TransferFtGasPayer>, transferN: seq<TransferNftSingleGasPayer>, mintF: seq<MintFt>,
    burnF: seq<BurnFtGasPayer>, mintN: seq<MintNft>, burnN: seq<BurnNftGasPayer>)

  datatype PhantasmaMsg = PhantasmaMsg(nexus: SmallString, chain: SmallString, script: seq<Byte>)

  datatype TxBody =
    | Call(call: TxMsgCall)
    | CallMulti(calls: seq<TxMsgCall>)
    | Trade(trade: TradeMsg)
    | TransferFungible(transferFt: TransferFt)
    | TransferFungibleGasPayer(transferFtGasPayer: TransferFtGasPayer)
    | TransferNonFungibleSingle(transferNftSingle: TransferNftSingle)
    | TransferNonFungibleSingleGasPayer(transferNftSingleGasPayer: TransferNftSingleGasPayer)
    | TransferNonFungibleMulti(transferNftMulti: TransferNftMulti)
    | TransferNonFungibleMultiGasPayer(transferNftMultiGasPayer: TransferNftMultiGasPayer)
    | MintFungible(mintFungible: MintFt)
    | BurnFungible(burnFungible: BurnFt)
    | BurnFungibleGasPayer(burnFungibleGasPayer: BurnFtGasPayer)
    | MintNonFungible(mintNonFungible: MintNft)
    | BurnNonFungible(burnNonFungible: BurnNft)
    | BurnNonFungibleGasPayer(burnNonFungibleGasPayer: BurnNftGasPayer)
    | Phantasma(phantasma: PhantasmaMsg)
    | PhantasmaRaw(transaction: seq<Byte>)

  /** The type byte of a payload. */
  function TypeOf(body: TxBody): U8 {
    match body
    case Call(_) => 0
    case CallMulti(_) => 1
    case Trade(_) => 2
    case TransferFungible(_) => 3
    case TransferFungibleGasPayer(_) => 4
    case TransferNonFungibleSingle(_) => 5
    case TransferNonFungibleSingleGasPayer(_) => 6
    case TransferNonFungibleMulti(_) => 7
    case TransferNonFungibleMultiGasPayer(_) => 8
    case MintFungible(_) => 9
    case BurnFungible(_) => 10
    case BurnFungibleGasPayer(_) => 11
    case MintNonFungible(_) => 12
    case BurnNonFungible(_) => 13
    case BurnNonFungibleGasPayer(_) => 14
    case Phantasma(_) => 15
    case PhantasmaRaw(_) => 16
  }

  datatype TxMsg = TxMsg(expiry: I64, maxGas: U64, maxData: U64, gasFrom: Bytes32, payload: SmallString, body: TxBody)

  datatype Witness = Witness(address: Bytes32, signature: Bytes64)

  datatype SignedTxMsg = SignedTxMsg(msg: TxMsg, witnesses: seq<Witness>)
}
