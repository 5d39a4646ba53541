/** Transactions on views: the call payload with its sections, the switch over the type byte, the
    message and the signed envelope. */
module TxViews {
  import opened Wrappers
  import opened Words64
  import opened Codecs
  import opened WireFormat
  import opened IntX
  import opened Messages
  import opened CallCodec
  import opened MessageCodecs
  import opened BodyCodecs
  import opened Envelope
  import opened Views
  import opened PayloadViews

  // ---- call sections ------------------------------------------------------------------------

  /** The value of the next word, left unread. */
  method Peek(r: ReadView) returns (out: Option<I32>)
    requires !r.fail
    modifies r`bytes, r`fail
    ensures out == PeekI32(old(r.bytes))
    ensures out.Some? ==> r.bytes == old(r.bytes) && !r.fail
  {
    hide Number;
    var mark := r.bytes;
    out := ReadI32(r);
    if out.Some? {
      r.Rewind(mark);
    }
  }

  method ReadSection(r: ReadView) returns (out: Option<MsgCallArgs>)
    requires !r.fail
    modifies r`bytes, r`fail
    ensures Reads(SectionCodec(), old(r.bytes), r.bytes, r.fail, out)
    ensures out.Some? ==> !r.fail
  {
    hide Number, CountedDec;
    var mark := r.bytes;
    var value := ReadI32(r);
    if value.None? {
      return None;
    }
    if value.value >= 0 {
      r.Rewind(mark);
      var args := ReadCounted(r);
      return if args.None? then None else Some(MsgCallArgs(0, args.value));
    }
    out := Some(MsgCallArgs(value.value, []));
  }

  method ReadSections(r: ReadView) returns (out: Option<CallTail>)
    requires !r.fail
    modifies r`bytes, r`fail
    ensures match SectionsDec(old(r.bytes)) {
      case None => out.None?
      case Some((t, n)) => n <= |old(r.bytes)| && out == Some(t) && r.bytes == old(r.bytes)[n..] && !r.fail
    }
  {
    hide Number, DecAll, SectionDec, Reads;
    ghost var start := r.bytes;
    var count := ReadCount(r);
    if count.None? || count.value >= 0 || count.value == -0x8000_0000 {
      return None;
    }
    var length: nat := -(count.value as int);
    if length > |r.bytes| / 4 {
      return None;
    }
    ghost var body := r.bytes;
    assert body == start[4..];
    var items: seq<MsgCallArgs> := [];
    DecNone(SectionCodec(), body);
    var i: nat := 0;
    while i != length
      invariant i <= length && !r.fail
      invariant DecAll(SectionCodec(), i, body).Some? && DecAll(SectionCodec(), i, body).value.0 == items
      invariant DecAll(SectionCodec(), i, body).value.1 <= |body| && r.bytes == body[DecAll(SectionCodec(), i, body).value.1..]
    {
      DecNext(SectionCodec(), i, body);
      ghost var before := r.bytes;
      var item := ReadSection(r);
      SectionOutcome(before, r.bytes, r.fail, item);
      if item.None? {
        NeverRecovers(SectionCodec(), i + 1, length, body);
        return None;
      }
      items := items + [item.value];
      i := i + 1;
    }
    out := Some(Sectioned(items));
  }

  lemma SectionOutcome(before: seq<Byte>, after: seq<Byte>, fail: bool, out: Option<MsgCallArgs>)
    requires Reads(SectionCodec(), before, after, fail, out)
    ensures match SectionCodec().dec(before) {
      case None => out.None?
      case Some((v, n)) => n <= |before| && out == Some(v) && after == before[n..] && !fail
    }
  {
  }

  method ReadCount(r: ReadView) returns (out: Option<I32>)
    requires !r.fail
    modifies r`bytes, r`fail
    ensures out == PeekI32(old(r.bytes))
    ensures out.Some? ==> |old(r.bytes)| >= 4 && r.bytes == old(r.bytes)[4..] && !r.fail
  {
    hide Number;
    out := ReadI32(r);
  }

  // ---- the call -----------------------------------------------------------------------------

  /** Plain arguments, or sections when the next word is negative. */
  method ReadTail(r: ReadView) returns (out: Option<CallTail>)
    requires !r.fail
    modifies r`bytes, r`fail
    ensures Reads(TailCodec(), old(r.bytes), r.bytes, r.fail, out)
    ensures out.Some? ==> !r.fail
  {
    hide PeekI32, CountedDec, SectionsDec;
    var len := Peek(r);
    if len.None? {
      return None;
    }
    if len.value >= 0 {
      var args := ReadCounted(r);
      return if args.None? then None else Some(Plain(args.value));
    }
    out := ReadSections(r);
  }

  method ReadCall(r: ReadView) returns (out: Option<TxMsgCall>)
    requires !r.fail
    modifies r`bytes, r`fail
    ensures Reads(TxMsgCallCodec(), old(r.bytes), r.bytes, r.fail, out)
    ensures out.Some? ==> !r.fail
  {
    hide U32Codec, TailCodec, Pair, Mapped, Reads;
    ghost var s0 := r.bytes;
    var moduleId := ReadU32(r);
    ghost var s1, f1 := r.bytes, r.fail;
    var methodId: Option<U32> := None;
    if moduleId.Some? { methodId := ReadU32(r); }
    ghost var s2, f2 := r.bytes, r.fail;
    var tail: Option<CallTail> := None;
    if methodId.Some? { tail := ReadTail(r); }
    if moduleId.Some? { PairReads(U32Codec(), TailCodec(), s1, s2, r.bytes, f2, r.fail, methodId, tail); }
    var fields := if tail.Some? then Some((moduleId.value, (methodId.value, tail.value))) else None;
    PairReads(U32Codec(), Pair(U32Codec(), TailCodec()), s0, s1, r.bytes, f1, r.fail, moduleId,
              if tail.Some? then Some((methodId.value, tail.value)) else None);
    MappedReads(CallFields(), ToCall, OfCall, (c: TxMsgCall) => CallFits(c), s0, r.bytes, r.fail, fields);
    out := if fields.Some? then Some(ToCall(fields.value)) else None;
  }

  method WriteSection(section: MsgCallArgs, w: WriteView)
    modifies w
    ensures w.m == old(w.m) + SectionCodec().enc(section)
  {
    hide LittleEndian;
    if section.registerOffset < 0 {
      WriteWord(FromI32(section.registerOffset), 4, w);
    } else {
      WriteCounted(section.args, w);
    }
  }

  method WriteSections(sections: seq<MsgCallArgs>, w: WriteView)
    modifies w
    ensures w.m == old(w.m) + EncAll(SectionCodec(), sections)
  {
    hide SectionCodec, EncAll;
    var i: nat := 0;
    EncNone(SectionCodec(), sections);
    while i != |sections|
      invariant i <= |sections| && w.m == old(w.m) + EncAll(SectionCodec(), sections[..i])
    {
      EncUpTo(SectionCodec(), sections, i);
      WriteSection(sections[i], w);
      i := i + 1;
    }
    assert sections[..i] == sections;
  }

  method WriteCall(c: TxMsgCall, w: WriteView)
    modifies w
    ensures w.m == old(w.m) + TxMsgCallCodec().enc(c)
  {
    hide LittleEndian, EncAll, TxMsgCallCodec, U32Codec, SectionCodec;
    CallImage(c, w.m);
    WriteU32(c.moduleId, w);
    WriteU32(c.methodId, w);
    if c.sections != [] {
      WriteWord(NegatedCount(|c.sections|), 4, w);
      WriteSections(c.sections, w);
      return;
    }
    WriteCounted(c.args, w);
  }

  lemma CallImage(c: TxMsgCall, m: seq<Byte>)
    ensures m + TxMsgCallCodec().enc(c) ==
      if c.sections == [] then m + U32Codec().enc(c.moduleId) + U32Codec().enc(c.methodId) + LittleEndian(|c.args|, 4) + c.args
      else m + U32Codec().enc(c.moduleId) + U32Codec().enc(c.methodId) + LittleEndian(NegatedCount(|c.sections|), 4)
           + EncAll(SectionCodec(), c.sections)
  {
    hide U32Codec, Pair, LittleEndian, EncAll;
    var tail := OfCall(c).1.1;
    var m2 := m + U32Codec().enc(c.moduleId) + U32Codec().enc(c.methodId);
    PairImage(U32Codec(), Pair(U32Codec(), TailCodec()), c.moduleId, (c.methodId, tail), m);
    PairImage(U32Codec(), TailCodec(), c.methodId, tail, m + U32Codec().enc(c.moduleId));
    if c.sections == [] {
      Appended(m2, LittleEndian(|c.args|, 4), c.args);
    } else {
      Appended(m2, LittleEndian(NegatedCount(|c.sections|), 4), EncAll(SectionCodec(), c.sections));
    }
  }

  // ---- lists of payloads --------------------------------------------------------------------

  method ReadCalls(r: ReadView) returns (out: Option<seq<TxMsgCall>>)
    requires !r.fail
    modifies r`bytes, r`fail
    ensures Reads(CallsCodec(), old(r.bytes), r.bytes, r.fail, out)
    ensures out.Some? ==> !r.fail
  {
    hide Reads, ArrayOf, LengthDec, ReadSoFar, TxMsgCallCodec;
    ghost var s, c := r.bytes, TxMsgCallCodec();
    LengthIsFour(s, 12);
    var len := ReadArrayLength(r, 12);
    if len.None? {
      NoLength(c, 12, s, r.bytes, r.fail);
      return None;
    }
    ghost var body := r.bytes;
    var items: seq<TxMsgCall> := [];
    NoneRead(c, body);
    var i: nat := 0;
    while i != len.value
      invariant i <= len.value && !r.fail && ReadSoFar(c, body, i, items, r.bytes)
    {
      ghost var before := r.bytes;
      var item := ReadCall(r);
      OneMore(c, body, i, items, before, r.bytes, r.fail, item);
      if item.None? {
        SomeRefused(c, 12, s, i + 1, len.value, r.bytes, r.fail);
        return None;
      }
      items := items + [item.value];
      i := i + 1;
    }
    AllRead(c, 12, s, len.value, items, r.bytes);
    out := Some(items);
  }

  method WriteCalls(calls: seq<TxMsgCall>, w: WriteView)
    modifies w
    ensures w.m == old(w.m) + CallsCodec().enc(calls)
  {
    hide EncAll, LittleEndian, TxMsgCallCodec;
    WriteWord(|calls|, 4, w);
    ghost var start := w.m;
    var i: nat := 0;
    EncNone(TxMsgCallCodec(), calls);
    while i != |calls|
      invariant i <= |calls| && w.m == start + EncAll(TxMsgCallCodec(), calls[..i])
    {
      EncUpTo(TxMsgCallCodec(), calls, i);
      WriteCall(calls[i], w);
      i := i + 1;
    }
    assert calls[..i] == calls;
  }

  method ReadTransferFtGasPayerList(r: ReadView) returns (out: Option<seq<TransferFtGasPayer>>)
    requires !r.fail
    modifies r`bytes, r`fail
    ensures Reads(ArrayOf(TransferFtGasPayerCodec(), MIN_TRANSFER_F), old(r.bytes), r.bytes, r.fail, out)
    ensures out.Some? ==> !r.fail
  {
    hide Reads, ArrayOf, LengthDec, ReadSoFar, TransferFtGasPayerCodec;
    ghost var s, c := r.bytes, TransferFtGasPayerCodec();
    LengthIsFour(s, MIN_TRANSFER_F);
    var len := ReadArrayLength(r, MIN_TRANSFER_F);
    if len.None? {
      NoLength(c, MIN_TRANSFER_F, s, r.bytes, r.fail);
      return None;
    }
    ghost var body := r.bytes;
    var items: seq<TransferFtGasPayer> := [];
    NoneRead(c, body);
    var i: nat := 0;
    while i != len.value
      invariant i <= len.value && !r.fail && ReadSoFar(c, body, i, items, r.bytes)
    {
      ghost var before := r.bytes;
      var item := ReadTransferFtGasPayer(r);
      OneMore(c, body, i, items, before, r.bytes, r.fail, item);
      if item.None? {
        SomeRefused(c, MIN_TRANSFER_F, s, i + 1, len.value, r.bytes, r.fail);
        return None;
      }
      items := items + [item.value];
      i := i + 1;
    }
    AllRead(c, MIN_TRANSFER_F, s, len.value, items, r.bytes);
    out := Some(items);
  }

  method ReadTransferNftSingleGasPayerList(r: ReadView) returns (out: Option<seq<TransferNftSingleGasPayer>>)
    requires !r.fail
    modifies r`bytes, r`fail
    ensures Reads(ArrayOf(TransferNftSingleGasPayerCodec(), MIN_TRANSFER_N), old(r.bytes), r.bytes, r.fail, out)
    ensures out.Some? ==> !r.fail
  {
    hide Reads, ArrayOf, LengthDec, ReadSoFar, TransferNftSingleGasPayerCodec;
    ghost var s, c := r.bytes, TransferNftSingleGasPayerCodec();
    LengthIsFour(s, MIN_TRANSFER_N);
    var len := ReadArrayLength(r, MIN_TRANSFER_N);
    if len.None? {
      NoLength(c, MIN_TRANSFER_N, s, r.bytes, r.fail);
      return None;
    }
    ghost var body := r.bytes;
    var items: seq<TransferNftSingleGasPayer> := [];
    NoneRead(c, body);
    var i: nat := 0;
    while i != len.value
      invariant i <= len.value && !r.fail && ReadSoFar(c, body, i, items, r.bytes)
    {
      ghost var before := r.bytes;
      var item := ReadTransferNftSingleGasPayer(r);
      OneMore(c, body, i, items, before, r.bytes, r.fail, item);
      if item.None? {
        SomeRefused(c, MIN_TRANSFER_N, s, i + 1, len.value, r.bytes, r.fail);
        return None;
      }
      items := items + [item.value];
      i := i + 1;
    }
    AllRead(c, MIN_TRANSFER_N, s, len.value, items, r.bytes);
    out := Some(items);
  }

  method ReadMintFtList(r: ReadView) returns (out: Option<seq<MintFt>>)
    requires !r.fail && !r.relaxed
    modifies r`bytes, r`fail, r`nonStandard
    ensures Reads(ArrayOf(MintFtCodec(), MIN_MINT_F), old(r.bytes), r.bytes, r.fail, out)
    ensures out.Some? ==> !r.fail
  {
    hide Reads, ArrayOf, LengthDec, ReadSoFar, MintFtCodec;
    ghost var s, c := r.bytes, MintFtCodec();
    LengthIsFour(s, MIN_MINT_F);
    var len := ReadArrayLength(r, MIN_MINT_F);
    if len.None? {
      NoLength(c, MIN_MINT_F, s, r.bytes, r.fail);
      return None;
    }
    ghost var body := r.bytes;
    var items: seq<MintFt> := [];
    NoneRead(c, body);
    var i: nat := 0;
    while i != len.value
      invariant i <= len.value && !r.fail && ReadSoFar(c, body, i, items, r.bytes)
    {
      ghost var before := r.bytes;
      var item := ReadMintFt(r);
      OneMore(c, body, i, items, before, r.bytes, r.fail, item);
      if item.None? {
        SomeRefused(c, MIN_MINT_F, s, i + 1, len.value, r.bytes, r.fail);
        return None;
      }
      items := items + [item.value];
      i := i + 1;
    }
    AllRead(c, MIN_MINT_F, s, len.value, items, r.bytes);
    out := Some(items);
  }

  method ReadBurnFtGasPayerList(r: ReadView) returns (out: Option<seq<BurnFtGasPayer>>)
    requires !r.fail && !r.relaxed
    modifies r`bytes, r`fail, r`nonStandard
    ensures Reads(ArrayOf(BurnFtGasPayerCodec(), MIN_BURN_F), old(r.bytes), r.bytes, r.fail, out)
    ensures out.Some? ==> !r.fail
  {
    hide Reads, ArrayOf, LengthDec, ReadSoFar, BurnFtGasPayerCodec;
    ghost var s, c := r.bytes, BurnFtGasPayerCodec();
    LengthIsFour(s, MIN_BURN_F);
    var len := ReadArrayLength(r, MIN_BURN_F);
    if len.None? {
      NoLength(c, MIN_BURN_F, s, r.bytes, r.fail);
      return None;
    }
    ghost var body := r.bytes;
    var items: seq<BurnFtGasPayer> := [];
    NoneRead(c, body);
    var i: nat := 0;
    while i != len.value
      invariant i <= len.value && !r.fail && ReadSoFar(c, body, i, items, r.bytes)
    {
      ghost var before := r.bytes;
      var item := ReadBurnFtGasPayer(r);
      OneMore(c, body, i, items, before, r.bytes, r.fail, item);
      if item.None? {
        SomeRefused(c, MIN_BURN_F, s, i + 1, len.value, r.bytes, r.fail);
        return None;
      }
      items := items + [item.value];
      i := i + 1;
    }
    AllRead(c, MIN_BURN_F, s, len.value, items, r.bytes);
    out := Some(items);
  }

  method ReadMintNftList(r: ReadView) returns (out: Option<seq<MintNft>>)
    requires !r.fail
    modifies r`bytes, r`fail
    ensures Reads(ArrayOf(MintNftCodec(), MIN_MINT_N), old(r.bytes), r.bytes, r.fail, out)
    ensures out.Some? ==> !r.fail
  {
    hide Reads, ArrayOf, LengthDec, ReadSoFar, MintNftCodec;
    ghost var s, c := r.bytes, MintNftCodec();
    LengthIsFour(s, MIN_MINT_N);
    var len := ReadArrayLength(r, MIN_MINT_N);
    if len.None? {
      NoLength(c, MIN_MINT_N, s, r.bytes, r.fail);
      return None;
    }
    ghost var body := r.bytes;
    var items: seq<MintNft> := [];
    NoneRead(c, body);
    var i: nat := 0;
    while i != len.value
      invariant i <= len.value && !r.fail && ReadSoFar(c, body, i, items, r.bytes)
    {
      ghost var before := r.bytes;
      var item := ReadMintNft(r);
      OneMore(c, body, i, items, before, r.bytes, r.fail, item);
      if item.None? {
        SomeRefused(c, MIN_MINT_N, s, i + 1, len.value, r.bytes, r.fail);
        return None;
      }
      items := items + [item.value];
      i := i + 1;
    }
    AllRead(c, MIN_MINT_N, s, len.value, items, r.bytes);
    out := Some(items);
  }

  method ReadBurnNftGasPayerList(r: ReadView) returns (out: Option<seq<BurnNftGasPayer>>)
    requires !r.fail
    modifies r`bytes, r`fail
    ensures Reads(ArrayOf(BurnNftGasPayerCodec(), MIN_BURN_N), old(r.bytes), r.bytes, r.fail, out)
    ensures out.Some? ==> !r.fail
  {
    hide Reads, ArrayOf, LengthDec, ReadSoFar, BurnNftGasPayerCodec;
    ghost var s, c := r.bytes, BurnNftGasPayerCodec();
    LengthIsFour(s, MIN_BURN_N);
    var len := ReadArrayLength(r, MIN_BURN_N);
    if len.None? {
      NoLength(c, MIN_BURN_N, s, r.bytes, r.fail);
      return None;
    }
    ghost var body := r.bytes;
    var items: seq<BurnNftGasPayer> := [];
    NoneRead(c, body);
    var i: nat := 0;
    while i != len.value
      invariant i <= len.value && !r.fail && ReadSoFar(c, body, i, items, r.bytes)
    {
      ghost var before := r.bytes;
      var item := ReadBurnNftGasPayer(r);
      OneMore(c, body, i, items, before, r.bytes, r.fail, item);
      if item.None? {
        SomeRefused(c, MIN_BURN_N, s, i + 1, len.value, r.bytes, r.fail);
        return None;
      }
      items := items + [item.value];
      i := i + 1;
    }
    AllRead(c, MIN_BURN_N, s, len.value, items, r.bytes);
    out := Some(items);
  }

  method ReadTrade(r: ReadView) returns (out: Option<TradeMsg>)
    requires !r.fail && !r.relaxed
    modifies r`bytes, r`fail, r`nonStandard
    ensures Reads(TradeCodec(), old(r.bytes), r.bytes, r.fail, out)
    ensures out.Some? ==> !r.fail
  {
    hide ArrayOf, Pair, Struct, Reads, TransferFtGasPayerCodec, TransferNftSingleGasPayerCodec, MintFtCodec, BurnFtGasPayerCodec,
         MintNftCodec, BurnNftGasPayerCodec;
    ghost var s0 := r.bytes;
    var transferF := ReadTransferFtGasPayerList(r);
    ghost var s1, f1 := r.bytes, r.fail;
    var transferN: Option<seq<TransferNftSingleGasPayer>> := None;
    if transferF.Some? { transferN := ReadTransferNftSingleGasPayerList(r); }
    ghost var s2, f2 := r.bytes, r.fail;
    var mintF: Option<seq<MintFt>> := None;
    if transferN.Some? { mintF := ReadMintFtList(r); }
    ghost var s3, f3 := r.bytes, r.fail;
    var burnF: Option<seq<BurnFtGasPayer>> := None;
    if mintF.Some? { burnF := ReadBurnFtGasPayerList(r); }
    ghost var s4, f4 := r.bytes, r.fail;
    var mintN: Option<seq<MintNft>> := None;
    if burnF.Some? { mintN := ReadMintNftList(r); }
    ghost var s5, f5 := r.bytes, r.fail;
    var burnN: Option<seq<BurnNftGasPayer>> := None;
    if mintN.Some? { burnN := ReadBurnNftGasPayerList(r); }
    if burnF.Some? {
      PairReads(ArrayOf(MintNftCodec(), MIN_MINT_N), ArrayOf(BurnNftGasPayerCodec(), MIN_BURN_N), s4, s5, r.bytes, f5, r.fail, mintN,
                burnN);
    }
    if mintF.Some? {
      PairReads(ArrayOf(BurnFtGasPayerCodec(), MIN_BURN_F), Pair(ArrayOf(MintNftCodec(), MIN_MINT_N), ArrayOf(BurnNftGasPayerCodec(), MIN_BURN_N)), s3, s4, r.bytes, f4, r.fail, burnF,
                if burnN.Some? then Some((mintN.value, burnN.value)) else None);
    }
    if transferN.Some? {
      PairReads(ArrayOf(MintFtCodec(), MIN_MINT_F), Pair(ArrayOf(BurnFtGasPayerCodec(), MIN_BURN_F), Pair(ArrayOf(MintNftCodec(), MIN_MINT_N), ArrayOf(BurnNftGasPayerCodec(), MIN_BURN_N))), s2, s3, r.bytes, f3, r.fail, mintF,
                if burnN.Some? then Some((burnF.value, (mintN.value, burnN.value))) else None);
    }
    if transferF.Some? {
      PairReads(ArrayOf(TransferNftSingleGasPayerCodec(), MIN_TRANSFER_N), TradeTail(), s1, s2, r.bytes, f2, r.fail, transferN,
                if burnN.Some? then Some((mintF.value, (burnF.value, (mintN.value, burnN.value)))) else None);
    }
    PairReads(ArrayOf(TransferFtGasPayerCodec(), MIN_TRANSFER_F), Pair(ArrayOf(TransferNftSingleGasPayerCodec(), MIN_TRANSFER_N), TradeTail()), s0, s1, r.bytes, f1, r.fail, transferF,
                if burnN.Some? then Some((transferN.value, (mintF.value, (burnF.value, (mintN.value, burnN.value))))) else None);
    StructReads(TradeFields(), ToTrade, OfTrade, s0, r.bytes, r.fail, if burnN.Some? then Some((transferF.value, (transferN.value, (mintF.value, (burnF.value, (mintN.value, burnN.value)))))) else None);
    out := if burnN.Some? then Some(ToTrade((transferF.value, (transferN.value, (mintF.value, (burnF.value, (mintN.value, burnN.value))))))) else None;
  }

  ghost predicate TradeAmountsFit(t: TradeMsg) {
    && (forall i :: 0 <= i < |t.mintF| ==> InInt256(t.mintF[i].amount))
    && (forall i :: 0 <= i < |t.burnF| ==> InInt256(t.burnF[i].amount))
  }

  method WriteTransferFtGasPayerList(items: seq<TransferFtGasPayer>, w: WriteView)
    modifies w
    ensures w.m == old(w.m) + ArrayOf(TransferFtGasPayerCodec(), MIN_TRANSFER_F).enc(items)
  {
    hide EncAll, LittleEndian, TransferFtGasPayerCodec, InInt256;
    WriteWord(|items|, 4, w);
    ghost var start := w.m;
    var i: nat := 0;
    EncNone(TransferFtGasPayerCodec(), items);
    while i != |items|
      invariant i <= |items| && w.m == start + EncAll(TransferFtGasPayerCodec(), items[..i])
    {
      EncUpTo(TransferFtGasPayerCodec(), items, i);
      WriteTransferFtGasPayer(items[i], w);
      i := i + 1;
    }
    assert items[..i] == items;
  }

  method WriteTransferNftSingleGasPayerList(items: seq<TransferNftSingleGasPayer>, w: WriteView)
    modifies w
    ensures w.m == old(w.m) + ArrayOf(TransferNftSingleGasPayerCodec(), MIN_TRANSFER_N).enc(items)
  {
    hide EncAll, LittleEndian, TransferNftSingleGasPayerCodec, InInt256;
    WriteWord(|items|, 4, w);
    ghost var start := w.m;
    var i: nat := 0;
    EncNone(TransferNftSingleGasPayerCodec(), items);
    while i != |items|
      invariant i <= |items| && w.m == start + EncAll(TransferNftSingleGasPayerCodec(), items[..i])
    {
      EncUpTo(TransferNftSingleGasPayerCodec(), items, i);
      WriteTransferNftSingleGasPayer(items[i], w);
      i := i + 1;
    }
    assert items[..i] == items;
  }

  method WriteMintFtList(items: seq<MintFt>, w: WriteView)
    requires forall i :: 0 <= i < |items| ==> InInt256(items[i].amount)
    modifies w
    ensures w.m == old(w.m) + ArrayOf(MintFtCodec(), MIN_MINT_F).enc(items)
  {
    hide EncAll, LittleEndian, MintFtCodec, InInt256;
    WriteWord(|items|, 4, w);
    ghost var start := w.m;
    var i: nat := 0;
    EncNone(MintFtCodec(), items);
    while i != |items|
      invariant i <= |items| && w.m == start + EncAll(MintFtCodec(), items[..i])
    {
      EncUpTo(MintFtCodec(), items, i);
      WriteMintFt(items[i], w);
      i := i + 1;
    }
    assert items[..i] == items;
  }

  method WriteBurnFtGasPayerList(items: seq<BurnFtGasPayer>, w: WriteView)
    requires forall i :: 0 <= i < |items| ==> InInt256(items[i].amount)
    modifies w
    ensures w.m == old(w.m) + ArrayOf(BurnFtGasPayerCodec(), MIN_BURN_F).enc(items)
  {
    hide EncAll, LittleEndian, BurnFtGasPayerCodec, InInt256;
    WriteWord(|items|, 4, w);
    ghost var start := w.m;
    var i: nat := 0;
    EncNone(BurnFtGasPayerCodec(), items);
    while i != |items|
      invariant i <= |items| && w.m == start + EncAll(BurnFtGasPayerCodec(), items[..i])
    {
      EncUpTo(BurnFtGasPayerCodec(), items, i);
      WriteBurnFtGasPayer(items[i], w);
      i := i + 1;
    }
    assert items[..i] == items;
  }

  method WriteMintNftList(items: seq<MintNft>, w: WriteView)
    modifies w
    ensures w.m == old(w.m) + ArrayOf(MintNftCodec(), MIN_MINT_N).enc(items)
  {
    hide EncAll, LittleEndian, MintNftCodec, InInt256;
    WriteWord(|items|, 4, w);
    ghost var start := w.m;
    var i: nat := 0;
    EncNone(MintNftCodec(), items);
    while i != |items|
      invariant i <= |items| && w.m == start + EncAll(MintNftCodec(), items[..i])
    {
      EncUpTo(MintNftCodec(), items, i);
      WriteMintNft(items[i], w);
      i := i + 1;
    }
    assert items[..i] == items;
  }

  method WriteBurnNftGasPayerList(items: seq<BurnNftGasPayer>, w: WriteView)
    modifies w
    ensures w.m == old(w.m) + ArrayOf(BurnNftGasPayerCodec(), MIN_BURN_N).enc(items)
  {
    hide EncAll, LittleEndian, BurnNftGasPayerCodec, InInt256;
    WriteWord(|items|, 4, w);
    ghost var start := w.m;
    var i: nat := 0;
    EncNone(BurnNftGasPayerCodec(), items);
    while i != |items|
      invariant i <= |items| && w.m == start + EncAll(BurnNftGasPayerCodec(), items[..i])
    {
      EncUpTo(BurnNftGasPayerCodec(), items, i);
      WriteBurnNftGasPayer(items[i], w);
      i := i + 1;
    }
    assert items[..i] == items;
  }

  method WriteTrade(t: TradeMsg, w: WriteView)
    requires TradeAmountsFit(t)
    modifies w
    ensures w.m == old(w.m) + TradeCodec().enc(t)
  {
    hide ArrayOf, Pair, Struct, TransferFtGasPayerCodec, TransferNftSingleGasPayerCodec, MintFtCodec, BurnFtGasPayerCodec,
         MintNftCodec, BurnNftGasPayerCodec, InInt256;
    StructImage(TradeFields(), ToTrade, OfTrade, t);
    PairImage(ArrayOf(TransferFtGasPayerCodec(), MIN_TRANSFER_F), Pair(ArrayOf(TransferNftSingleGasPayerCodec(), MIN_TRANSFER_N), TradeTail()), t.transferF, (t.transferN, (t.mintF, (t.burnF, (t.mintN, t.burnN)))), w.m);
    WriteTransferFtGasPayerList(t.transferF, w);
    PairImage(ArrayOf(TransferNftSingleGasPayerCodec(), MIN_TRANSFER_N), TradeTail(), t.transferN, (t.mintF, (t.burnF, (t.mintN, t.burnN))), w.m);
    WriteTransferNftSingleGasPayerList(t.transferN, w);
    PairImage(ArrayOf(MintFtCodec(), MIN_MINT_F), Pair(ArrayOf(BurnFtGasPayerCodec(), MIN_BURN_F), Pair(ArrayOf(MintNftCodec(), MIN_MINT_N), ArrayOf(BurnNftGasPayerCodec(), MIN_BURN_N))), t.mintF, (t.burnF, (t.mintN, t.burnN)), w.m);
    WriteMintFtList(t.mintF, w);
    PairImage(ArrayOf(BurnFtGasPayerCodec(), MIN_BURN_F), Pair(ArrayOf(MintNftCodec(), MIN_MINT_N), ArrayOf(BurnNftGasPayerCodec(), MIN_BURN_N)), t.burnF, (t.mintN, t.burnN), w.m);
    WriteBurnFtGasPayerList(t.burnF, w);
    PairImage(ArrayOf(MintNftCodec(), MIN_MINT_N), ArrayOf(BurnNftGasPayerCodec(), MIN_BURN_N), t.mintN, t.burnN, w.m);
    WriteMintNftList(t.mintN, w);
    WriteBurnNftGasPayerList(t.burnN, w);
  }

  // ---- the switch over the type byte --------------------------------------------------------

  method ReadCallBody(r: ReadView) returns (out: Option<TxBody>)
    requires !r.fail
    modifies r`bytes, r`fail
    ensures Reads(CallBody(), old(r.bytes), r.bytes, r.fail, out)
    ensures out.Some? ==> !r.fail
  {
    hide TxMsgCallCodec, Variant, Reads;
    ghost var start := r.bytes;
    var x := ReadCall(r);
    VariantReads(TxMsgCallCodec(), (x: TxMsgCall) => Call(x), (b: TxBody) => if b.Call? then Some(b.call) else None, start, r.bytes, r.fail, x);
    out := if x.Some? then Some(Call(x.value)) else None;
  }

  method ReadCallMultiBody(r: ReadView) returns (out: Option<TxBody>)
    requires !r.fail
    modifies r`bytes, r`fail
    ensures Reads(CallMultiBody(), old(r.bytes), r.bytes, r.fail, out)
    ensures out.Some? ==> !r.fail
  {
    hide CallsCodec, Variant, Reads;
    ghost var start := r.bytes;
    var x := ReadCalls(r);
    VariantReads(CallsCodec(), (x: seq<TxMsgCall>) => CallMulti(x), (b: TxBody) => if b.CallMulti? then Some(b.calls) else None, start, r.bytes, r.fail, x);
    out := if x.Some? then Some(CallMulti(x.value)) else None;
  }

  method ReadTradeBody(r: ReadView) returns (out: Option<TxBody>)
    requires !r.fail && !r.relaxed
    modifies r`bytes, r`fail, r`nonStandard
    ensures Reads(TradeBody(), old(r.bytes), r.bytes, r.fail, out)
    ensures out.Some? ==> !r.fail
  {
    hide TradeCodec, Variant, Reads;
    ghost var start := r.bytes;
    var x := ReadTrade(r);
    VariantReads(TradeCodec(), (x: TradeMsg) => Trade(x), (b: TxBody) => if b.Trade? then Some(b.trade) else None, start, r.bytes, r.fail, x);
    out := if x.Some? then Some(Trade(x.value)) else None;
  }

  method ReadTransferFungibleBody(r: ReadView) returns (out: Option<TxBody>)
    requires !r.fail
    modifies r`bytes, r`fail
    ensures Reads(TransferFungibleBody(), old(r.bytes), r.bytes, r.fail, out)
    ensures out.Some? ==> !r.fail
  {
    hide TransferFtCodec, Variant, Reads;
    ghost var start := r.bytes;
    var x := ReadTransferFt(r);
    VariantReads(TransferFtCodec(), (x: TransferFt) => TransferFungible(x), (b: TxBody) => if b.TransferFungible? then Some(b.transferFt) else None, start, r.bytes, r.fail, x);
    out := if x.Some? then Some(TransferFungible(x.value)) else None;
  }

  method ReadTransferFungibleGasPayerBody(r: ReadView) returns (out: Option<TxBody>)
    requires !r.fail
    modifies r`bytes, r`fail
    ensures Reads(TransferFungibleGasPayerBody(), old(r.bytes), r.bytes, r.fail, out)
    ensures out.Some? ==> !r.fail
  {
    hide TransferFtGasPayerCodec, Variant, Reads;
    ghost var start := r.bytes;
    var x := ReadTransferFtGasPayer(r);
    VariantReads(TransferFtGasPayerCodec(), (x: TransferFtGasPayer) => TransferFungibleGasPayer(x), (b: TxBody) => if b.TransferFungibleGasPayer? then Some(b.transferFtGasPayer) else None, start, r.bytes, r.fail, x);
    out := if x.Some? then Some(TransferFungibleGasPayer(x.value)) else None;
  }

  method ReadTransferNonFungibleSingleBody(r: ReadView) returns (out: Option<TxBody>)
    requires !r.fail
    modifies r`bytes, r`fail
    ensures Reads(TransferNonFungibleSingleBody(), old(r.bytes), r.bytes, r.fail, out)
    ensures out.Some? ==> !r.fail
  {
    hide TransferNftSingleCodec, Variant, Reads;
    ghost var start := r.bytes;
    var x := ReadTransferNftSingle(r);
    VariantReads(TransferNftSingleCodec(), (x: TransferNftSingle) => TransferNonFungibleSingle(x), (b: TxBody) => if b.TransferNonFungibleSingle? then Some(b.transferNftSingle) else None, start, r.bytes, r.fail, x);
    out := if x.Some? then Some(TransferNonFungibleSingle(x.value)) else None;
  }

  method ReadTransferNonFungibleSingleGasPayerBody(r: ReadView) returns (out: Option<TxBody>)
    requires !r.fail
    modifies r`bytes, r`fail
    ensures Reads(TransferNonFungibleSingleGasPayerBody(), old(r.bytes), r.bytes, r.fail, out)
    ensures out.Some? ==> !r.fail
  {
    hide TransferNftSingleGasPayerCodec, Variant, Reads;
    ghost var start := r.bytes;
    var x := ReadTransferNftSingleGasPayer(r);
    VariantReads(TransferNftSingleGasPayerCodec(), (x: TransferNftSingleGasPayer) => TransferNonFungibleSingleGasPayer(x), (b: TxBody) => if b.TransferNonFungibleSingleGasPayer? then Some(b.transferNftSingleGasPayer) else None, start, r.bytes, r.fail, x);
    out := if x.Some? then Some(TransferNonFungibleSingleGasPayer(x.value)) else None;
  }

  method ReadTransferNonFungibleMultiBody(r: ReadView) returns (out: Option<TxBody>)
    requires !r.fail
    modifies r`bytes, r`fail
    ensures Reads(TransferNonFungibleMultiBody(), old(r.bytes), r.bytes, r.fail, out)
    ensures out.Some? ==> !r.fail
  {
    hide TransferNftMultiCodec, Variant, Reads;
    ghost var start := r.bytes;
    var x := ReadTransferNftMulti(r);
    VariantReads(TransferNftMultiCodec(), (x: TransferNftMulti) => TransferNonFungibleMulti(x), (b: TxBody) => if b.TransferNonFungibleMulti? then Some(b.transferNftMulti) else None, start, r.bytes, r.fail, x);
    out := if x.Some? then Some(TransferNonFungibleMulti(x.value)) else None;
  }

  method ReadTransferNonFungibleMultiGasPayerBody(r: ReadView) returns (out: Option<TxBody>)
    requires !r.fail
    modifies r`bytes, r`fail
    ensures Reads(TransferNonFungibleMultiGasPayerBody(), old(r.bytes), r.bytes, r.fail, out)
    ensures out.Some? ==> !r.fail
  {
    hide TransferNftMultiGasPayerCodec, Variant, Reads;
    ghost var start := r.bytes;
    var x := ReadTransferNftMultiGasPayer(r);
    VariantReads(TransferNftMultiGasPayerCodec(), (x: TransferNftMultiGasPayer) => TransferNonFungibleMultiGasPayer(x), (b: TxBody) => if b.TransferNonFungibleMultiGasPayer? then Some(b.transferNftMultiGasPayer) else None, start, r.bytes, r.fail, x);
    out := if x.Some? then Some(TransferNonFungibleMultiGasPayer(x.value)) else None;
  }

  method ReadMintFungibleBody(r: ReadView) returns (out: Option<TxBody>)
    requires !r.fail && !r.relaxed
    modifies r`bytes, r`fail, r`nonStandard
    ensures Reads(MintFungibleBody(), old(r.bytes), r.bytes, r.fail, out)
    ensures out.Some? ==> !r.fail
  {
    hide MintFtCodec, Variant, Reads;
    ghost var start := r.bytes;
    var x := ReadMintFt(r);
    VariantReads(MintFtCodec(), (x: MintFt) => MintFungible(x), (b: TxBody) => if b.MintFungible? then Some(b.mintFungible) else None, start, r.bytes, r.fail, x);
    out := if x.Some? then Some(MintFungible(x.value)) else None;
  }

  method ReadBurnFungibleBody(r: ReadView) returns (out: Option<TxBody>)
    requires !r.fail && !r.relaxed
    modifies r`bytes, r`fail, r`nonStandard
    ensures Reads(BurnFungibleBody(), old(r.bytes), r.bytes, r.fail, out)
    ensures out.Some? ==> !r.fail
  {
    hide BurnFtCodec, Variant, Reads;
    ghost var start := r.bytes;
    var x := ReadBurnFt(r);
    VariantReads(BurnFtCodec(), (x: BurnFt) => BurnFungible(x), (b: TxBody) => if b.BurnFungible? then Some(b.burnFungible) else None, start, r.bytes, r.fail, x);
    out := if x.Some? then Some(BurnFungible(x.value)) else None;
  }

  method ReadBurnFungibleGasPayerBody(r: ReadView) returns (out: Option<TxBody>)
    requires !r.fail && !r.relaxed
    modifies r`bytes, r`fail, r`nonStandard
    ensures Reads(BurnFungibleGasPayerBody(), old(r.bytes), r.bytes, r.fail, out)
    ensures out.Some? ==> !r.fail
  {
    hide BurnFtGasPayerCodec, Variant, Reads;
    ghost var start := r.bytes;
    var x := ReadBurnFtGasPayer(r);
    VariantReads(BurnFtGasPayerCodec(), (x: BurnFtGasPayer) => BurnFungibleGasPayer(x), (b: TxBody) => if b.BurnFungibleGasPayer? then Some(b.burnFungibleGasPayer) else None, start, r.bytes, r.fail, x);
    out := if x.Some? then Some(BurnFungibleGasPayer(x.value)) else None;
  }

  method ReadMintNonFungibleBody(r: ReadView) returns (out: Option<TxBody>)
    requires !r.fail
    modifies r`bytes, r`fail
    ensures Reads(MintNonFungibleBody(), old(r.bytes), r.bytes, r.fail, out)
    ensures out.Some? ==> !r.fail
  {
    hide MintNftCodec, Variant, Reads;
    ghost var start := r.bytes;
    var x := ReadMintNft(r);
    VariantReads(MintNftCodec(), (x: MintNft) => MintNonFungible(x), (b: TxBody) => if b.MintNonFungible? then Some(b.mintNonFungible) else None, start, r.bytes, r.fail, x);
    out := if x.Some? then Some(MintNonFungible(x.value)) else None;
  }

  method ReadBurnNonFungibleBody(r: ReadView) returns (out: Option<TxBody>)
    requires !r.fail
    modifies r`bytes, r`fail
    ensures Reads(BurnNonFungibleBody(), old(r.bytes), r.bytes, r.fail, out)
    ensures out.Some? ==> !r.fail
  {
    hide BurnNftCodec, Variant, Reads;
    ghost var start := r.bytes;
    var x := ReadBurnNft(r);
    VariantReads(BurnNftCodec(), (x: BurnNft) => BurnNonFungible(x), (b: TxBody) => if b.BurnNonFungible? then Some(b.burnNonFungible) else None, start, r.bytes, r.fail, x);
    out := if x.Some? then Some(BurnNonFungible(x.value)) else None;
  }

  method ReadBurnNonFungibleGasPayerBody(r: ReadView) returns (out: Option<TxBody>)
    requires !r.fail
    modifies r`bytes, r`fail
    ensures Reads(BurnNonFungibleGasPayerBody(), old(r.bytes), r.bytes, r.fail, out)
    ensures out.Some? ==> !r.fail
  {
    hide BurnNftGasPayerCodec, Variant, Reads;
    ghost var start := r.bytes;
    var x := ReadBurnNftGasPayer(r);
    VariantReads(BurnNftGasPayerCodec(), (x: BurnNftGasPayer) => BurnNonFungibleGasPayer(x), (b: TxBody) => if b.BurnNonFungibleGasPayer? then Some(b.burnNonFungibleGasPayer) else None, start, r.bytes, r.fail, x);
    out := if x.Some? then Some(BurnNonFungibleGasPayer(x.value)) else None;
  }

  method ReadPhantasmaBody(r: ReadView) returns (out: Option<TxBody>)
    requires !r.fail
    modifies r`bytes, r`fail
    ensures Reads(PhantasmaBody(), old(r.bytes), r.bytes, r.fail, out)
    ensures out.Some? ==> !r.fail
  {
    hide PhantasmaMsgCodec, Variant, Reads;
    ghost var start := r.bytes;
    var x := ReadPhantasmaMsg(r);
    VariantReads(PhantasmaMsgCodec(), (x: PhantasmaMsg) => Phantasma(x), (b: TxBody) => if b.Phantasma? then Some(b.phantasma) else None, start, r.bytes, r.fail, x);
    out := if x.Some? then Some(Phantasma(x.value)) else None;
  }

  method ReadPhantasmaRawBody(r: ReadView) returns (out: Option<TxBody>)
    requires !r.fail
    modifies r`bytes, r`fail
    ensures Reads(PhantasmaRawBody(), old(r.bytes), r.bytes, r.fail, out)
    ensures out.Some? ==> !r.fail
  {
    hide Counted, Variant, Reads;
    ghost var start := r.bytes;
    var x := ReadCounted(r);
    VariantReads(Counted(), (x: seq<Byte>) => PhantasmaRaw(x), (b: TxBody) => if b.PhantasmaRaw? then Some(b.transaction) else None, start, r.bytes, r.fail, x);
    out := if x.Some? then Some(PhantasmaRaw(x.value)) else None;
  }

  /** The payload of the type the byte names; an unknown byte names none. */
  method ReadBody(tag: U8, r: ReadView) returns (out: Option<TxBody>)
    requires !r.fail && !r.relaxed
    modifies r`bytes, r`fail, r`nonStandard
    ensures Reads(BodyCodec(tag), old(r.bytes), r.bytes, r.fail, out)
    ensures out.Some? ==> !r.fail
  {
    hide CallBody, CallMultiBody, TradeBody, TransferFungibleBody, TransferFungibleGasPayerBody, TransferNonFungibleSingleBody, TransferNonFungibleSingleGasPayerBody, TransferNonFungibleMultiBody, TransferNonFungibleMultiGasPayerBody, MintFungibleBody, BurnFungibleBody, BurnFungibleGasPayerBody, MintNonFungibleBody, BurnNonFungibleBody, BurnNonFungibleGasPayerBody, PhantasmaBody, PhantasmaRawBody;
    match tag
    case 0 => out := ReadCallBody(r);
    case 1 => out := ReadCallMultiBody(r);
    case 2 => out := ReadTradeBody(r);
    case 3 => out := ReadTransferFungibleBody(r);
    case 4 => out := ReadTransferFungibleGasPayerBody(r);
    case 5 => out := ReadTransferNonFungibleSingleBody(r);
    case 6 => out := ReadTransferNonFungibleSingleGasPayerBody(r);
    case 7 => out := ReadTransferNonFungibleMultiBody(r);
    case 8 => out := ReadTransferNonFungibleMultiGasPayerBody(r);
    case 9 => out := ReadMintFungibleBody(r);
    case 10 => out := ReadBurnFungibleBody(r);
    case 11 => out := ReadBurnFungibleGasPayerBody(r);
    case 12 => out := ReadMintNonFungibleBody(r);
    case 13 => out := ReadBurnNonFungibleBody(r);
    case 14 => out := ReadBurnNonFungibleGasPayerBody(r);
    case 15 => out := ReadPhantasmaBody(r);
    case 16 => out := ReadPhantasmaRawBody(r);
    case _ => out := None;
  }

  /** The amounts a writer is handed are 256-bit numbers. */
  ghost predicate AmountsFit(body: TxBody) {
    match body
    case Trade(t) => TradeAmountsFit(t)
    case MintFungible(t) => InInt256(t.amount)
    case BurnFungible(t) => InInt256(t.amount)
    case BurnFungibleGasPayer(t) => InInt256(t.amount)
    case _ => true
  }

  method WriteBody(body: TxBody, w: WriteView)
    requires AmountsFit(body)
    modifies w
    ensures w.m == old(w.m) + BodyCodec(TypeOf(body)).enc(body)
  {
    hide BodyCodec, TypeOf, InInt256, TradeAmountsFit, CallsCodec, BurnFtCodec, BurnFtGasPayerCodec, BurnNftCodec, BurnNftGasPayerCodec, Counted, MintFtCodec, MintNftCodec, PhantasmaMsgCodec, TradeCodec, TransferFtCodec, TransferFtGasPayerCodec, TransferNftMultiCodec, TransferNftMultiGasPayerCodec, TransferNftSingleCodec, TransferNftSingleGasPayerCodec, TxMsgCallCodec;
    match body
    case Call(x) =>
      CallBodyShape(x);
      WriteCall(x, w);
    case CallMulti(x) =>
      CallMultiBodyShape(x);
      WriteCalls(x, w);
    case Trade(x) =>
      TradeBodyShape(x);
      WriteTrade(x, w);
    case TransferFungible(x) =>
      TransferFungibleBodyShape(x);
      WriteTransferFt(x, w);
    case TransferFungibleGasPayer(x) =>
      TransferFungibleGasPayerBodyShape(x);
      WriteTransferFtGasPayer(x, w);
    case TransferNonFungibleSingle(x) =>
      TransferNonFungibleSingleBodyShape(x);
      WriteTransferNftSingle(x, w);
    case TransferNonFungibleSingleGasPayer(x) =>
      TransferNonFungibleSingleGasPayerBodyShape(x);
      WriteTransferNftSingleGasPayer(x, w);
    case TransferNonFungibleMulti(x) =>
      TransferNonFungibleMultiBodyShape(x);
      WriteTransferNftMulti(x, w);
    case TransferNonFungibleMultiGasPayer(x) =>
      TransferNonFungibleMultiGasPayerBodyShape(x);
      WriteTransferNftMultiGasPayer(x, w);
    case MintFungible(x) =>
      MintFungibleBodyShape(x);
      WriteMintFt(x, w);
    case BurnFungible(x) =>
      BurnFungibleBodyShape(x);
      WriteBurnFt(x, w);
    case BurnFungibleGasPayer(x) =>
      BurnFungibleGasPayerBodyShape(x);
      WriteBurnFtGasPayer(x, w);
    case MintNonFungible(x) =>
      MintNonFungibleBodyShape(x);
      WriteMintNft(x, w);
    case BurnNonFungible(x) =>
      BurnNonFungibleBodyShape(x);
      WriteBurnNft(x, w);
    case BurnNonFungibleGasPayer(x) =>
      BurnNonFungibleGasPayerBodyShape(x);
      WriteBurnNftGasPayer(x, w);
    case Phantasma(x) =>
      PhantasmaBodyShape(x);
      WritePhantasmaMsg(x, w);
    case PhantasmaRaw(x) =>
      PhantasmaRawBodyShape(x);
      WriteCounted(x, w);
  }
}
