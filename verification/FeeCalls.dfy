/** What a message is described as, field by field: the parameters of every native type, and of every call
    read off its argument bytes. */
module FeeCalls {
  import opened Wrappers
  import opened Words64
  import opened Codecs
  import opened WireFormat
  import opened IntX
  import M = Messages
  import opened MessageCodecs
  import opened Envelope
  import opened Layouts
  import opened TokenCalls
  import opened TokenMetadata
  import opened GasConfigs
  import opened FeeModel
  import opened FeeEstimator
  import opened FeePlan
  import opened FeePlanning
  import opened FeeMovements

  // ---- parameters ---------------------------------------------------------------------------

  /** The facts as stated, but for the two that belong to one kind of operation. */
  function StatedFacts(o: FeePlanOptions): StateFacts {
    StateFacts(o.facts.recipientHoldsToken, o.facts.bigFungible, o.facts.tokenBurnedBefore, o.facts.supplyRowExists, true, o.facts.romHasMetaId, true)
  }

  /** A movement of so many instances of a token: nothing returned, no sizes, and the defaults elsewhere. */
  function Moved(facts: StateFacts, tokenId: U64, count: U32, toNft: bool): NativeFeeParams {
    NativeFeeParams(facts, count, tokenId, toNft, [], 0, 0, false, false, false, false, false, 0, 0, 0, None, 0, None, 1, 5000, 512, 4)
  }

  /** What nothing is stated about: every fact at its costlier reading and no token. */
  function Unstated(): NativeFeeParams {
    Moved(StateFacts(false, true, false, false, true, true, true), 0xFFFF_FFFF_FFFF_FFFF, 1, false)
  }

  /** An address made of a token and one of its instances. */
  predicate NftAddress(address: Bytes32, token: U64, instance: U64) {
    && token != 0 && instance != 0
    && address == [0, 0, 0, 0, 0, 0, 0, 0, 0, 0, 0, 0, 0, 0, 0, 1] + Word8(token) + Word8(instance)
  }

  lemma NftAddressExactly(address: Bytes32)
    ensures IsNftAddress(address) <==> exists token: U64, instance: U64 :: NftAddress(address, token, instance)
  {
    hide ToU64, Word8;
    var head := [0, 0, 0, 0, 0, 0, 0, 0, 0, 0, 0, 0, 0, 0, 0, 1];
    if IsNftAddress(address) {
      var token, instance := ToU64(address[16..24]), ToU64(address[24..32]);
      WordBack(address[16..24]);
      WordBack(address[24..32]);
      assert address[..16] == head;
      assert address == address[..16] + address[16..24] + address[24..32];
      assert NftAddress(address, token, instance);
    }
    forall token: U64, instance: U64 | NftAddress(address, token, instance) ensures IsNftAddress(address) {
      ReadWord8(token);
      ReadWord8(instance);
      assert address[16..24] == Word8(token) && address[24..32] == Word8(instance);
      assert forall i :: 0 <= i < 16 ==> address[i] == head[i];
    }
  }

  lemma WordBack(s: seq<Byte>)
    requires |s| == 8
    ensures Word8(ToU64(s)) == s
  {
    hide Number, LittleEndian;
    BytePowers();
    NumberWritten(s);
  }

  // ---- the native types ---------------------------------------------------------------------

  lemma TransferDescribed(o: FeePlanOptions, meta: MetaReader, t: M.TransferFt, u: M.TransferFtGasPayer)
    ensures MessageParts(M.TransferFungible(t), o, meta) ==
      Some([NativeFeePart(TransferFungible, Moved(StatedFacts(o), t.tokenId, 1, IsNftAddress(t.to)))])
    ensures MessageParts(M.TransferFungibleGasPayer(u), o, meta) ==
      Some([NativeFeePart(TransferFungible, Moved(StatedFacts(o), u.tokenId, 1, IsNftAddress(u.to)))])
  {
    hide IsNftAddress;
  }

  lemma InstanceTransferDescribed(o: FeePlanOptions, meta: MetaReader, t: M.TransferNftSingle, u: M.TransferNftSingleGasPayer,
                                  v: M.TransferNftMulti, w: M.TransferNftMultiGasPayer)
    requires |v.instanceIds| < 0x1_0000_0000 && |w.instanceIds| < 0x1_0000_0000
    ensures MessageParts(M.TransferNonFungibleSingle(t), o, meta) ==
      Some([NativeFeePart(TransferNonFungible, Moved(StatedFacts(o), t.tokenId, 1, IsNftAddress(t.to)))])
    ensures MessageParts(M.TransferNonFungibleSingleGasPayer(u), o, meta) ==
      Some([NativeFeePart(TransferNonFungible, Moved(StatedFacts(o), u.tokenId, 1, IsNftAddress(u.to)))])
    ensures MessageParts(M.TransferNonFungibleMulti(v), o, meta) ==
      Some([NativeFeePart(TransferNonFungible, Moved(StatedFacts(o), v.tokenId, |v.instanceIds|, IsNftAddress(v.to)))])
    ensures MessageParts(M.TransferNonFungibleMultiGasPayer(w), o, meta) ==
      Some([NativeFeePart(TransferNonFungible, Moved(StatedFacts(o), w.tokenId, |w.instanceIds|, IsNftAddress(w.to)))])
  {
    hide IsNftAddress;
  }

  lemma MintDescribed(o: FeePlanOptions, meta: MetaReader, t: M.MintFt, u: M.MintNft)
    requires |u.rom| < 0x1_0000_0000 && |u.ram| < 0x1_0000_0000
    ensures MessageParts(M.MintFungible(t), o, meta) ==
      Some([NativeFeePart(MintFungible, Moved(StatedFacts(o), t.tokenId, 1, IsNftAddress(t.to)))])
    ensures MessageParts(M.MintNonFungible(u), o, meta) ==
      Some([NativeFeePart(MintNonFungible, Moved(StatedFacts(o), u.tokenId, 1, IsNftAddress(u.to)).(romBytes := |u.rom|, ramBytes := |u.ram|))])
  {
    hide IsNftAddress;
  }

  lemma BurnDescribed(o: FeePlanOptions, meta: MetaReader, t: M.BurnFt, u: M.BurnFtGasPayer, v: M.BurnNft, w: M.BurnNftGasPayer)
    ensures MessageParts(M.BurnFungible(t), o, meta) == Some([NativeFeePart(BurnFungible, Moved(StatedFacts(o), t.tokenId, 1, false))])
    ensures MessageParts(M.BurnFungibleGasPayer(u), o, meta) == Some([NativeFeePart(BurnFungible, Moved(StatedFacts(o), u.tokenId, 1, false))])
    ensures MessageParts(M.BurnNonFungible(v), o, meta) ==
      if o.infusionsRead then Some([NativeFeePart(BurnNonFungible, Moved(StatedFacts(o), v.tokenId, 1, false).(infusions := o.infusions))]) else None
    ensures MessageParts(M.BurnNonFungibleGasPayer(w), o, meta) ==
      if o.infusionsRead then Some([NativeFeePart(BurnNonFungible, Moved(StatedFacts(o), w.tokenId, 1, false).(infusions := o.infusions))]) else None
  {
  }

  /** A script is budgeted with what the options allow it. */
  function Budget(o: FeePlanOptions): NativeFeePart {
    NativeFeePart(Script, Unstated().(scriptUnitsAllowance := o.scriptUnitsAllowance, scriptEventBytes := o.scriptEventBytes,
                                      scriptStorageQuanta := o.scriptStorageQuanta))
  }

  lemma ScriptDescribed(o: FeePlanOptions, meta: MetaReader, t: M.TradeMsg, u: M.PhantasmaMsg, raw: seq<Byte>)
    ensures MessageParts(M.Trade(t), o, meta) == Some([Budget(o)]) && MessageParts(M.Phantasma(u), o, meta) == Some([Budget(o)])
    ensures MessageParts(M.PhantasmaRaw(raw), o, meta) == None
  {
  }

  // ---- calls --------------------------------------------------------------------------------

  /** A call with sections, to another module, or to a method that is not priced, is a script. */
  lemma OtherCallsAreScripts(o: FeePlanOptions, meta: MetaReader, take: bool, call: M.TxMsgCall)
    requires call.sections != [] || (call.moduleId == 1 && call.methodId !in {0, 1, 2, 3, 4, 6, 9, 27})
      || (call.moduleId == 0 && call.methodId != 1) || call.moduleId > 1
    ensures CallPart(call, o, take, meta) == Some(Budget(o))
  {
  }

  lemma TransferCallDescribed(o: FeePlanOptions, meta: MetaReader, take: bool, to: Bytes32, holder: Bytes32, tokenId: U64, rest: seq<Byte>)
    ensures CallPart(M.TxMsgCall(1, 0, to + holder + Word8(tokenId) + rest, []), o, take, meta) ==
      Some(NativeFeePart(TransferFungible, Moved(StatedFacts(o), tokenId, 1, IsNftAddress(to))))
  {
    hide CallPart, IsNftAddress, Word8;
    TransferCalled(o, meta, take, to, holder, tokenId, 0, rest);
    TransferDescribed(o, meta, M.TransferFt(to, tokenId, 0), M.TransferFtGasPayer(to, holder, tokenId, 0));
  }

  /** The ids behind a count, eight bytes each. */
  lemma InstanceTransferCallDescribed(o: FeePlanOptions, meta: MetaReader, take: bool, to: Bytes32, holder: Bytes32, tokenId: U64, ids: seq<U64>, rest: seq<Byte>)
    requires |ids| < 0x8000_0000
    ensures CallPart(M.TxMsgCall(1, 1, to + holder + Word8(tokenId) + Word4(|ids|) + IdBytes(ids) + rest, []), o, take, meta) ==
      Some(NativeFeePart(TransferNonFungible, Moved(StatedFacts(o), tokenId, |ids|, IsNftAddress(to))))
  {
    hide CallPart, IsNftAddress, Word8, Word4, IdBytes;
    NftTransferCalled(o, meta, take, to, holder, tokenId, ids, rest);
    InstanceTransferDescribed(o, meta, M.TransferNftSingle(to, tokenId, 0), M.TransferNftSingleGasPayer(to, holder, tokenId, 0),
                              M.TransferNftMulti(to, tokenId, ids), M.TransferNftMultiGasPayer(to, holder, tokenId, ids));
  }

  lemma MintCallDescribed(o: FeePlanOptions, meta: MetaReader, take: bool, to: Bytes32, tokenId: U64, rest: seq<Byte>)
    ensures CallPart(M.TxMsgCall(1, 3, Word8(tokenId) + to + rest, []), o, take, meta) ==
      Some(NativeFeePart(MintFungible, Moved(StatedFacts(o), tokenId, 1, IsNftAddress(to))))
  {
    hide CallPart, IsNftAddress, Word8;
    MintCalled(o, meta, take, to, tokenId, 0, rest);
    MintDescribed(o, meta, M.MintFt(tokenId, 0, to), M.MintNft(tokenId, to, 0, [], []));
  }

  lemma BurnCallDescribed(o: FeePlanOptions, meta: MetaReader, take: bool, tokenId: U64, rest: seq<Byte>, payer: Bytes32)
    ensures CallPart(M.TxMsgCall(1, 4, Word8(tokenId) + rest, []), o, take, meta) ==
      Some(NativeFeePart(BurnFungible, Moved(StatedFacts(o), tokenId, 1, false)))
  {
    hide CallPart, Word8;
    BurnCalled(o, meta, take, tokenId, 0, payer, rest);
    BurnDescribed(o, meta, M.BurnFt(tokenId, 0), M.BurnFtGasPayer(tokenId, 0, payer), M.BurnNft(tokenId, 0), M.BurnNftGasPayer(tokenId, payer, 0));
  }

  /** The first burn of a batch takes the returned assets, which then have to be read. */
  lemma InstanceBurnCallDescribed(o: FeePlanOptions, meta: MetaReader, take: bool, tokenId: U64, holder: Bytes32, ids: seq<U64>)
    requires |ids| < 0x8000_0000
    ensures CallPart(M.TxMsgCall(1, 9, Word8(tokenId) + holder + Word4(|ids|) + IdBytes(ids), []), o, take, meta) ==
      if take && !o.infusionsRead then None
      else Some(NativeFeePart(BurnNonFungible, Moved(StatedFacts(o), tokenId, |ids|, false).(infusions := if take then o.infusions else [])))
  {
    hide Word8, Word4, IdBytes, BurnNonFungibleArgs, CallPart, Moved, StatedFacts, BurnPart;
    BurnArgsRead(tokenId, holder, ids);
    BurnCallIs(o, meta, take, Word8(tokenId) + holder + Word4(|ids|) + IdBytes(ids), tokenId, ids);
    BurnPartIs(o, tokenId, |ids|, take);
  }

  lemma BurnCallIs(o: FeePlanOptions, meta: MetaReader, take: bool, args: seq<Byte>, tokenId: U64, ids: seq<U64>)
    requires BurnNonFungibleArgs(args) == Some((tokenId, ids)) && |ids| < 0x8000_0000
    ensures CallPart(M.TxMsgCall(1, 9, args, []), o, take, meta) == BurnPart(o, tokenId, |ids|, take)
  {
    hide BurnNonFungibleArgs, BurnPart;
  }

  lemma BurnPartIs(o: FeePlanOptions, tokenId: U64, count: U32, take: bool)
    ensures BurnPart(o, tokenId, count, take) ==
      if take && !o.infusionsRead then None
      else Some(NativeFeePart(BurnNonFungible, Moved(StatedFacts(o), tokenId, count, false).(infusions := if take then o.infusions else [])))
  {
  }

  // ---- the Phantasma mint -------------------------------------------------------------------

  /** One entry: the series, the public ROM and the RAM. */
  function EntryBytes(e: MintEntry): seq<Byte> {
    WriteValue(e.0) + (Word4(|e.1.0| % 0x1_0000_0000) + e.1.0 + (Word4(|e.1.1| % 0x1_0000_0000) + e.1.1))
  }

  function EntriesBytes(entries: seq<MintEntry>): seq<Byte> {
    if entries == [] then [] else EntriesBytes(entries[..|entries| - 1]) + EntryBytes(entries[|entries| - 1])
  }

  ghost predicate EntryFits(e: MintEntry) {
    InInt256(e.0) && |e.1.0| < 0x8000_0000 && |e.1.1| < 0x8000_0000
  }

  lemma PairOf<A, B>(a: Codec<A>, b: Codec<B>, x: A, y: B)
    ensures Pair(a, b).fits((x, y)) <==> a.fits(x) && b.fits(y)
    ensures Pair(a, b).enc((x, y)) == a.enc(x) + b.enc(y)
  {
  }

  lemma EntryFieldsFit(e: MintEntry)
    requires EntryFits(e)
    ensures IntXCodec().fits(e.0) && Counted().fits(e.1.0) && Counted().fits(e.1.1)
    ensures |e.1.0| % 0x1_0000_0000 == |e.1.0| && |e.1.1| % 0x1_0000_0000 == |e.1.1|
  {
    hide IntXCodec, Counted, InInt256;
    FieldShapes();
  }

  lemma EntryImage(e: MintEntry)
    requires EntryFits(e)
    ensures EntryCodec().fits(e) && EntryCodec().enc(e) == EntryBytes(e)
  {
    hide Pair, WriteValue, IntXCodec, Counted, LittleEndian, InInt256, EntryFits;
    EntryFieldsFit(e);
    PairOf(Counted(), Counted(), e.1.0, e.1.1);
    PairOf(IntXCodec(), Pair(Counted(), Counted()), e.0, e.1);
    Layouts.Amount(e.0);
    Blob(e.1.0);
    Blob(e.1.1);
  }

  lemma {:induction false} EntriesImage(entries: seq<MintEntry>)
    requires forall i :: 0 <= i < |entries| ==> EntryFits(entries[i])
    ensures EncAll(EntryCodec(), entries) == EntriesBytes(entries)
    ensures forall i :: 0 <= i < |entries| ==> EntryCodec().fits(entries[i])
  {
    hide EntryCodec, EntryBytes, EntryFits;
    if entries != [] {
      var n := |entries| - 1;
      EntriesImage(entries[..n]);
      EntryImage(entries[n]);
    }
  }

  function PhantasmaArgs(tokenId: U64, to: Bytes32, entries: seq<MintEntry>, rest: seq<Byte>): seq<Byte>
    requires |entries| < 0x1_0000_0000
  {
    Word8(tokenId) + to + Word4(|entries|) + (EntriesBytes(entries) + rest)
  }

  lemma PhantasmaArgsRead(tokenId: U64, to: Bytes32, entries: seq<MintEntry>, rest: seq<Byte>)
    requires |entries| < 0x1_0000_0000 && forall i :: 0 <= i < |entries| ==> EntryFits(entries[i])
    ensures PhantasmaMintFacts(PhantasmaArgs(tokenId, to, entries, rest)) ==
      Some(MintFacts(tokenId, to, RomSizes(entries), RamSizes(entries), SeriesOf(entries)))
  {
    hide ToU64, ToU32, Word8, Word4, EntryCodec, DecAll, EncAll, Lawful, Faithful, Product, EntriesBytes, EntryFits, RomSizes, RamSizes, SeriesOf;
    var body := EntriesBytes(entries) + rest;
    EntryLawful();
    LawfulIsFaithful(EntryCodec());
    EntriesImage(entries);
    ReadWord8(tokenId);
    ReadWord4(|entries|);
    AllReadBack(EntryCodec(), entries, rest);
    AtLeastAsMany(|entries|, EntriesBytes(entries));
    var args := PhantasmaArgs(tokenId, to, entries, rest);
    assert args[..8] == Word8(tokenId) && args[8..40] == to && args[40..44] == Word4(|entries|) && args[44..] == body;
  }

  lemma AtLeastAsMany(n: nat, bytes: seq<Byte>)
    requires |bytes| >= Product(n, 17)
    ensures |bytes| >= n
  {
    assert Product(n, 17) == n * 17;
  }

  /** A deterministic mint: the token, the recipient, one ROM size and one RAM size per entry in order, and
      as many series as the entries name. */
  lemma PhantasmaMintDescribed(o: FeePlanOptions, meta: MetaReader, take: bool, tokenId: U64, to: Bytes32, entries: seq<MintEntry>, rest: seq<Byte>)
    requires |entries| < 0x1_0000_0000 && forall i :: 0 <= i < |entries| ==> EntryFits(entries[i])
    ensures
      var part := CallPart(M.TxMsgCall(1, 27, PhantasmaArgs(tokenId, to, entries, rest), []), o, take, meta);
      && part.Some? && part.value.kind == MintPhantasmaNonFungible
      && var p := part.value.params;
      && p == Moved(StatedFacts(o).(duplicatedSeries := o.facts.duplicatedSeries), tokenId, |entries|, IsNftAddress(to)).(
                romBytesPerInstance := p.romBytesPerInstance, ramBytesPerInstance := p.ramBytesPerInstance, distinctSeriesCount := p.distinctSeriesCount)
      && p.SizesFit() && (p.romBytesPerInstance.Some? <==> entries != []) && (p.ramBytesPerInstance.Some? <==> entries != [])
      && (forall i :: 0 <= i < |entries| ==> p.romBytesPerInstance.value[i] == |entries[i].1.0| && p.ramBytesPerInstance.value[i] == |entries[i].1.1|)
      && p.distinctSeriesCount == if entries == [] then 1 else |SeriesNamed(entries)|
  {
    hide PhantasmaMintFacts, PhantasmaArgs, CallPart, MintPart, Moved, StatedFacts, IsNftAddress, EntryFits, RomSizes, RamSizes, SeriesOf, SeriesNamed;
    PhantasmaArgsRead(tokenId, to, entries, rest);
    PhantasmaCallIs(o, meta, take, PhantasmaArgs(tokenId, to, entries, rest), MintFacts(tokenId, to, RomSizes(entries), RamSizes(entries), SeriesOf(entries)));
    MintPartIs(o, tokenId, to, entries);
  }

  lemma PhantasmaCallIs(o: FeePlanOptions, meta: MetaReader, take: bool, args: seq<Byte>, facts: MintFacts)
    requires PhantasmaMintFacts(args) == Some(facts)
    ensures CallPart(M.TxMsgCall(1, 27, args, []), o, take, meta) == Some(MintPart(o, facts))
  {
    hide PhantasmaMintFacts, MintPart;
  }

  lemma MintPartIs(o: FeePlanOptions, tokenId: U64, to: Bytes32, entries: seq<MintEntry>)
    requires |entries| < 0x1_0000_0000 && forall i :: 0 <= i < |entries| ==> EntryFits(entries[i])
    ensures
      var part := MintPart(o, MintFacts(tokenId, to, RomSizes(entries), RamSizes(entries), SeriesOf(entries)));
      && part.kind == MintPhantasmaNonFungible
      && var p := part.params;
      && p == Moved(StatedFacts(o).(duplicatedSeries := o.facts.duplicatedSeries), tokenId, |entries|, IsNftAddress(to)).(
                romBytesPerInstance := p.romBytesPerInstance, ramBytesPerInstance := p.ramBytesPerInstance, distinctSeriesCount := p.distinctSeriesCount)
      && p.SizesFit() && (p.romBytesPerInstance.Some? <==> entries != []) && (p.ramBytesPerInstance.Some? <==> entries != [])
      && (forall i :: 0 <= i < |entries| ==> p.romBytesPerInstance.value[i] == |entries[i].1.0| && p.ramBytesPerInstance.value[i] == |entries[i].1.1|)
      && p.distinctSeriesCount == if entries == [] then 1 else |SeriesNamed(entries)|
  {
    hide IsNftAddress, EntryFits, Size;
    SeriesCount(entries);
    assert SeriesOf(entries) == SeriesNamed(entries);
    forall i | 0 <= i < |entries| ensures Size(entries[i].1.0) == |entries[i].1.0| && Size(entries[i].1.1) == |entries[i].1.1| {
      EntrySizes(entries[i]);
    }
  }

  lemma EntrySizes(e: MintEntry)
    requires EntryFits(e)
    ensures Size(e.1.0) == |e.1.0| && Size(e.1.1) == |e.1.1|
  {
  }

  /** The series the entries name. */
  function SeriesNamed(entries: seq<MintEntry>): set<int> {
    set e | e in entries :: e.0
  }

  // ---- creations and names ------------------------------------------------------------------

  /** The token info of a creation: the supply, the flags, the decimals, the owner, the symbol and the
      metadata. */
  function InfoBytes(maxSupply: int, flags: U8, decimals: U8, owner: Bytes32, symbol: SmallString, metadata: seq<Byte>): seq<Byte> {
    WriteValue(maxSupply) + ([flags] + ([decimals] + (owner + (([|symbol|] + symbol) + (Word4(|metadata| % 0x1_0000_0000) + metadata)))))
  }

  lemma InfoLawful()
    ensures Lawful(TokenInfoCodec())
  {
    hide Pair, IntXCodec, Counted, U8Codec, Bytes32Codec, SmallStringCodec, Lawful;
    var a := Pair(SmallStringCodec(), Counted());
    var b := Pair(Bytes32Codec(), a);
    var c := Pair(U8Codec(), b);
    var d := Pair(U8Codec(), c);
    FieldsLawful();
    PairLawful(SmallStringCodec(), Counted());
    PairLawful(Bytes32Codec(), a);
    PairLawful(U8Codec(), b);
    PairLawful(U8Codec(), c);
    PairLawful(IntXCodec(), d);
  }

  lemma InfoFieldsFit(maxSupply: int, flags: U8, decimals: U8, owner: Bytes32, symbol: SmallString, metadata: seq<Byte>)
    requires InInt256(maxSupply) && |metadata| < 0x8000_0000
    ensures IntXCodec().fits(maxSupply) && U8Codec().fits(flags) && U8Codec().fits(decimals) && Bytes32Codec().fits(owner)
    ensures SmallStringCodec().fits(symbol) && Counted().fits(metadata) && |metadata| % 0x1_0000_0000 == |metadata|
  {
    hide IntXCodec, Counted, U8Codec, Bytes32Codec, SmallStringCodec, InInt256;
    FieldShapes();
  }

  lemma InfoImage(maxSupply: int, flags: U8, decimals: U8, owner: Bytes32, symbol: SmallString, metadata: seq<Byte>)
    requires InInt256(maxSupply) && |metadata| < 0x8000_0000
    ensures
      var info := (maxSupply, (flags, (decimals, (owner, (symbol, metadata)))));
      TokenInfoCodec().fits(info) && TokenInfoCodec().enc(info) == InfoBytes(maxSupply, flags, decimals, owner, symbol, metadata)
  {
    hide Pair, WriteValue, IntXCodec, Counted, U8Codec, Bytes32Codec, SmallStringCodec, LittleEndian, InInt256;
    var a := Pair(SmallStringCodec(), Counted());
    var b := Pair(Bytes32Codec(), a);
    var c := Pair(U8Codec(), b);
    var d := Pair(U8Codec(), c);
    InfoFieldsFit(maxSupply, flags, decimals, owner, symbol, metadata);
    PairOf(SmallStringCodec(), Counted(), symbol, metadata);
    PairOf(Bytes32Codec(), a, owner, (symbol, metadata));
    PairOf(U8Codec(), b, decimals, (owner, (symbol, metadata)));
    PairOf(U8Codec(), c, flags, (decimals, (owner, (symbol, metadata))));
    PairOf(IntXCodec(), d, maxSupply, (flags, (decimals, (owner, (symbol, metadata)))));
    Layouts.Amount(maxSupply);
    Layouts.Tag(flags);
    Layouts.Tag(decimals);
    Layouts.Key(owner);
    Layouts.Note(symbol);
    Layouts.Blob(metadata);
  }

  lemma InfoRead(maxSupply: int, flags: U8, decimals: U8, owner: Bytes32, symbol: SmallString, metadata: seq<Byte>, rest: seq<Byte>)
    requires InInt256(maxSupply) && |metadata| < 0x8000_0000
    ensures
      var image := InfoBytes(maxSupply, flags, decimals, owner, symbol, metadata);
      TokenInfoCodec().dec(image + rest) == Some(((maxSupply, (flags, (decimals, (owner, (symbol, metadata))))), |image|))
  {
    hide TokenInfoCodec, InfoBytes, InInt256, Lawful;
    InfoLawful();
    InfoImage(maxSupply, flags, decimals, owner, symbol, metadata);
    ReadsBack(TokenInfoCodec(), (maxSupply, (flags, (decimals, (owner, (symbol, metadata))))), rest);
  }

  /** A token creation is described by the length of its symbol, the length of its arguments, the second flag
      bit and, where there is metadata, four keys of it. */
  lemma CreationDescribed(o: FeePlanOptions, meta: MetaReader, take: bool, maxSupply: int, flags: U8, decimals: U8, owner: Bytes32,
                          symbol: SmallString, metadata: seq<Byte>, rest: seq<Byte>)
    requires InInt256(maxSupply) && |metadata| < 0x8000_0000
    requires |InfoBytes(maxSupply, flags, decimals, owner, symbol, metadata) + rest| < 0x1_0000_0000
    ensures
      var args := InfoBytes(maxSupply, flags, decimals, owner, symbol, metadata) + rest;
      var plain := Unstated().(symbolLength := |symbol|, tokenInfoBytes := |args|, nonFungible := flags % 4 >= 2);
      CallPart(M.TxMsgCall(1, 2, args, []), o, take, meta) ==
        if metadata == [] then Some(NativeFeePart(CreateToken, plain))
        else if meta(metadata).None? then None
        else
          var k := meta(metadata).value;
          Some(NativeFeePart(CreateToken, plain.(hasPreBurn := k.preBurn, hasInflationSchedule := k.inflationSchedule,
                                                 hasStakingOrganisation := k.stakingOrganisation, hasStakingRewardToken := k.stakingRewardToken)))
  {
    hide InfoBytes, TokenInfoCodec, InInt256;
    InfoRead(maxSupply, flags, decimals, owner, symbol, metadata, rest);
  }

  /** A series is described by the length of its arguments behind the token id, whatever they are. */
  lemma SeriesDescribed(o: FeePlanOptions, meta: MetaReader, take: bool, args: seq<Byte>)
    requires |args| < 0x1_0000_0000
    ensures CallPart(M.TxMsgCall(1, 6, args, []), o, take, meta) ==
      Some(NativeFeePart(CreateTokenSeries,
        Moved(StateFacts(false, true, false, false, true, true, o.facts.seriesHasMetaId), 0xFFFF_FFFF_FFFF_FFFF, 1, false).(
          seriesInfoBytes := if |args| <= 8 then 0 else |args| - 8)))
  {
  }

  /** A name is described by its length. */
  lemma NameDescribed(o: FeePlanOptions, meta: MetaReader, take: bool, address: Bytes32, name: SmallString, rest: seq<Byte>)
    ensures CallPart(M.TxMsgCall(0, 1, address + [|name|] + name + rest, []), o, take, meta) ==
      Some(NativeFeePart(RegisterName, Unstated().(nameLength := |name|)))
  {
    var args := address + [|name|] + name + rest;
    assert args[32] == |name|;
  }

  /** Arguments that end before the fields that are read are refused, call by call. */
  lemma ShortArgumentsRefused(o: FeePlanOptions, meta: MetaReader, take: bool, args: seq<Byte>)
    ensures |args| < 72 ==> CallPart(M.TxMsgCall(1, 0, args, []), o, take, meta) == None
    ensures |args| < 76 ==> CallPart(M.TxMsgCall(1, 1, args, []), o, take, meta) == None
    ensures |args| < 40 ==> CallPart(M.TxMsgCall(1, 3, args, []), o, take, meta) == None
    ensures |args| < 8 ==> CallPart(M.TxMsgCall(1, 4, args, []), o, take, meta) == None
    ensures |args| < 44 ==> CallPart(M.TxMsgCall(1, 9, args, []), o, take, meta) == None
    ensures |args| < 44 ==> CallPart(M.TxMsgCall(1, 27, args, []), o, take, meta) == None
    ensures |args| < 33 ==> CallPart(M.TxMsgCall(0, 1, args, []), o, take, meta) == None
  {
    hide IsNftAddress;
  }

  // ---- burned instances ---------------------------------------------------------------------

  /** The instances a burn lists: the token with each id, in order. */
  lemma BurnedListed(tokenId: U64, holder: Bytes32, ids: seq<U64>, native: U64)
    requires |ids| < 0x8000_0000
    ensures BurnedOf(M.BurnNonFungible(M.BurnNft(tokenId, native))) == Some([BurnedInstance(tokenId, native)])
    ensures BurnedOf(M.BurnNonFungibleGasPayer(M.BurnNftGasPayer(tokenId, holder, native))) == Some([BurnedInstance(tokenId, native)])
    ensures
      var listed := BurnedOf(M.Call(M.TxMsgCall(1, 9, Word8(tokenId) + holder + Word4(|ids|) + IdBytes(ids), [])));
      listed.Some? && |listed.value| == |ids| && forall i :: 0 <= i < |ids| ==> listed.value[i] == BurnedInstance(tokenId, ids[i])
  {
    hide Word8, Word4, IdBytes, BurnNonFungibleArgs;
    BurnArgsRead(tokenId, holder, ids);
  }
}
