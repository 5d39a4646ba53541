/** Payload readers and writers on views, one field after another, as each type lays them out. */
module PayloadViews {
  import opened Wrappers
  import opened Words64
  import opened Codecs
  import opened WireFormat
  import opened IntX
  import opened IntXViews
  import opened Messages
  import opened MessageCodecs
  import opened Views

  // ---- amounts and instance lists -----------------------------------------------------------

  method ReadAmount(r: ReadView) returns (out: Option<int>)
    requires !r.fail && !r.relaxed
    modifies r`bytes, r`fail, r`nonStandard
    ensures Reads(IntXCodec(), old(r.bytes), r.bytes, r.fail, out)
    ensures out.Some? ==> !r.fail
  {
    hide ReadValue, ValueOf;
    var x := ReadIntX(r);
    out := if x.None? then None else Some(ValueOf(x.value));
  }

  /** An amount in its smaller representation. */
  function Amount(v: int): IntXValue
    requires InInt256(v)
  {
    if InInt64(v) then Normal(FromI64(v)) else Big(WordOf(v, 32))
  }

  lemma AmountIs(v: int)
    requires InInt256(v)
    ensures ValueOf(Amount(v)) == v
  {
    hide WordOf;
    if !InInt64(v) { WordReads(v, 32); }
  }

  method WriteAmount(v: int, w: WriteView)
    requires InInt256(v)
    modifies w
    ensures w.m == old(w.m) + IntXCodec().enc(v)
  {
    hide ValueOf, WriteValue;
    AmountIs(v);
    WriteIntX(Amount(v), w);
  }

  method ReadInstanceIds(r: ReadView) returns (out: Option<seq<U64>>)
    requires !r.fail
    modifies r`bytes, r`fail
    ensures Reads(InstanceIdsCodec(), old(r.bytes), r.bytes, r.fail, out)
    ensures out.Some? ==> !r.fail
  {
    hide Reads, ArrayOf, LengthDec, ReadSoFar, U64Codec;
    ghost var s, c := r.bytes, U64Codec();
    LengthIsFour(s, 8);
    var len := ReadArrayLength(r, 8);
    if len.None? {
      NoLength(c, 8, s, r.bytes, r.fail);
      return None;
    }
    ghost var body := r.bytes;
    var items: seq<U64> := [];
    NoneRead(c, body);
    var i: nat := 0;
    while i != len.value
      invariant i <= len.value && !r.fail && ReadSoFar(c, body, i, items, r.bytes)
    {
      ghost var before := r.bytes;
      var item := ReadU64(r);
      OneMore(c, body, i, items, before, r.bytes, r.fail, item);
      if item.None? {
        SomeRefused(c, 8, s, i + 1, len.value, r.bytes, r.fail);
        return None;
      }
      items := items + [item.value];
      i := i + 1;
    }
    AllRead(c, 8, s, len.value, items, r.bytes);
    out := Some(items);
  }

  method WriteInstanceIds(items: seq<U64>, w: WriteView)
    modifies w
    ensures w.m == old(w.m) + InstanceIdsCodec().enc(items)
  {
    hide EncAll, LittleEndian, U64Codec;
    WriteWord(|items|, 4, w);
    ghost var start := w.m;
    var i: nat := 0;
    EncNone(U64Codec(), items);
    while i != |items|
      invariant i <= |items| && w.m == start + EncAll(U64Codec(), items[..i])
    {
      EncUpTo(U64Codec(), items, i);
      WriteU64(items[i], w);
      i := i + 1;
    }
    assert items[..i] == items;
  }

  // ---- TransferFt ----

  method ReadTransferFt(r: ReadView) returns (out: Option<TransferFt>)
    requires !r.fail
    modifies r`bytes, r`fail
    ensures Reads(TransferFtCodec(), old(r.bytes), r.bytes, r.fail, out)
    ensures out.Some? ==> !r.fail
  {
    hide Bytes32Codec, Bytes64Codec, U32Codec, U64Codec, SmallStringCodec, Counted, InstanceIdsCodec, IntXCodec, Pair, Struct, Reads;
    ghost var s0 := r.bytes;
    var to := ReadBytes32(r);
    ghost var s1, f1 := r.bytes, r.fail;
    var tokenId: Option<U64> := None;
    if to.Some? { tokenId := ReadU64(r); }
    ghost var s2, f2 := r.bytes, r.fail;
    var amount: Option<U64> := None;
    if tokenId.Some? { amount := ReadU64(r); }
    if to.Some? { PairReads(U64Codec(), U64Codec(), s1, s2, r.bytes, f2, r.fail, tokenId, amount); }
    PairReads(Bytes32Codec(), Pair(U64Codec(), U64Codec()), s0, s1, r.bytes, f1, r.fail, to, if amount.Some? then Some((tokenId.value, amount.value)) else None);
    StructReads(TransferFtFields(), ToTransferFt, OfTransferFt, s0, r.bytes, r.fail, if amount.Some? then Some((to.value, (tokenId.value, amount.value))) else None);
    out := if amount.Some? then Some(TransferFt(to.value, tokenId.value, amount.value)) else None;
  }

  method WriteTransferFt(x: TransferFt, w: WriteView)
    modifies w
    ensures w.m == old(w.m) + TransferFtCodec().enc(x)
  {
    hide Bytes32Codec, Bytes64Codec, U32Codec, U64Codec, SmallStringCodec, Counted, InstanceIdsCodec, IntXCodec, Pair, Struct, InInt256;
    StructImage(TransferFtFields(), ToTransferFt, OfTransferFt, x);
    PairImage(Bytes32Codec(), Pair(U64Codec(), U64Codec()), x.to, (x.tokenId, x.amount), w.m);
    WriteBytes32(x.to, w);
    PairImage(U64Codec(), U64Codec(), x.tokenId, x.amount, w.m);
    WriteU64(x.tokenId, w);
    WriteU64(x.amount, w);
  }

  // ---- TransferFtGasPayer ----

  method ReadTransferFtGasPayer(r: ReadView) returns (out: Option<TransferFtGasPayer>)
    requires !r.fail
    modifies r`bytes, r`fail
    ensures Reads(TransferFtGasPayerCodec(), old(r.bytes), r.bytes, r.fail, out)
    ensures out.Some? ==> !r.fail
  {
    hide Bytes32Codec, Bytes64Codec, U32Codec, U64Codec, SmallStringCodec, Counted, InstanceIdsCodec, IntXCodec, Pair, Struct, Reads;
    ghost var s0 := r.bytes;
    var to := ReadBytes32(r);
    ghost var s1, f1 := r.bytes, r.fail;
    var payer: Option<Bytes32> := None;
    if to.Some? { payer := ReadBytes32(r); }
    ghost var s2, f2 := r.bytes, r.fail;
    var tokenId: Option<U64> := None;
    if payer.Some? { tokenId := ReadU64(r); }
    ghost var s3, f3 := r.bytes, r.fail;
    var amount: Option<U64> := None;
    if tokenId.Some? { amount := ReadU64(r); }
    if payer.Some? { PairReads(U64Codec(), U64Codec(), s2, s3, r.bytes, f3, r.fail, tokenId, amount); }
    if to.Some? { PairReads(Bytes32Codec(), Pair(U64Codec(), U64Codec()), s1, s2, r.bytes, f2, r.fail, payer, if amount.Some? then Some((tokenId.value, amount.value)) else None); }
    PairReads(Bytes32Codec(), Pair(Bytes32Codec(), Pair(U64Codec(), U64Codec())), s0, s1, r.bytes, f1, r.fail, to, if amount.Some? then Some((payer.value, (tokenId.value, amount.value))) else None);
    StructReads(TransferFtGasPayerFields(), ToTransferFtGasPayer, OfTransferFtGasPayer, s0, r.bytes, r.fail, if amount.Some? then Some((to.value, (payer.value, (tokenId.value, amount.value)))) else None);
    out := if amount.Some? then Some(TransferFtGasPayer(to.value, payer.value, tokenId.value, amount.value)) else None;
  }

  method WriteTransferFtGasPayer(x: TransferFtGasPayer, w: WriteView)
    modifies w
    ensures w.m == old(w.m) + TransferFtGasPayerCodec().enc(x)
  {
    hide Bytes32Codec, Bytes64Codec, U32Codec, U64Codec, SmallStringCodec, Counted, InstanceIdsCodec, IntXCodec, Pair, Struct, InInt256;
    StructImage(TransferFtGasPayerFields(), ToTransferFtGasPayer, OfTransferFtGasPayer, x);
    PairImage(Bytes32Codec(), Pair(Bytes32Codec(), Pair(U64Codec(), U64Codec())), x.to, (x.payer, (x.tokenId, x.amount)), w.m);
    WriteBytes32(x.to, w);
    PairImage(Bytes32Codec(), Pair(U64Codec(), U64Codec()), x.payer, (x.tokenId, x.amount), w.m);
    WriteBytes32(x.payer, w);
    PairImage(U64Codec(), U64Codec(), x.tokenId, x.amount, w.m);
    WriteU64(x.tokenId, w);
    WriteU64(x.amount, w);
  }

  // ---- TransferNftSingle ----

  method ReadTransferNftSingle(r: ReadView) returns (out: Option<TransferNftSingle>)
    requires !r.fail
    modifies r`bytes, r`fail
    ensures Reads(TransferNftSingleCodec(), old(r.bytes), r.bytes, r.fail, out)
    ensures out.Some? ==> !r.fail
  {
    hide Bytes32Codec, Bytes64Codec, U32Codec, U64Codec, SmallStringCodec, Counted, InstanceIdsCodec, IntXCodec, Pair, Struct, Reads;
    ghost var s0 := r.bytes;
    var to := ReadBytes32(r);
    ghost var s1, f1 := r.bytes, r.fail;
    var tokenId: Option<U64> := None;
    if to.Some? { tokenId := ReadU64(r); }
    ghost var s2, f2 := r.bytes, r.fail;
    var instanceId: Option<U64> := None;
    if tokenId.Some? { instanceId := ReadU64(r); }
    if to.Some? { PairReads(U64Codec(), U64Codec(), s1, s2, r.bytes, f2, r.fail, tokenId, instanceId); }
    PairReads(Bytes32Codec(), Pair(U64Codec(), U64Codec()), s0, s1, r.bytes, f1, r.fail, to, if instanceId.Some? then Some((tokenId.value, instanceId.value)) else None);
    StructReads(TransferNftSingleFields(), ToTransferNftSingle, OfTransferNftSingle, s0, r.bytes, r.fail, if instanceId.Some? then Some((to.value, (tokenId.value, instanceId.value))) else None);
    out := if instanceId.Some? then Some(TransferNftSingle(to.value, tokenId.value, instanceId.value)) else None;
  }

  method WriteTransferNftSingle(x: TransferNftSingle, w: WriteView)
    modifies w
    ensures w.m == old(w.m) + TransferNftSingleCodec().enc(x)
  {
    hide Bytes32Codec, Bytes64Codec, U32Codec, U64Codec, SmallStringCodec, Counted, InstanceIdsCodec, IntXCodec, Pair, Struct, InInt256;
    StructImage(TransferNftSingleFields(), ToTransferNftSingle, OfTransferNftSingle, x);
    PairImage(Bytes32Codec(), Pair(U64Codec(), U64Codec()), x.to, (x.tokenId, x.instanceId), w.m);
    WriteBytes32(x.to, w);
    PairImage(U64Codec(), U64Codec(), x.tokenId, x.instanceId, w.m);
    WriteU64(x.tokenId, w);
    WriteU64(x.instanceId, w);
  }

  // ---- TransferNftSingleGasPayer ----

  method ReadTransferNftSingleGasPayer(r: ReadView) returns (out: Option<TransferNftSingleGasPayer>)
    requires !r.fail
    modifies r`bytes, r`fail
    ensures Reads(TransferNftSingleGasPayerCodec(), old(r.bytes), r.bytes, r.fail, out)
    ensures out.Some? ==> !r.fail
  {
    hide Bytes32Codec, Bytes64Codec, U32Codec, U64Codec, SmallStringCodec, Counted, InstanceIdsCodec, IntXCodec, Pair, Struct, Reads;
    ghost var s0 := r.bytes;
    var to := ReadBytes32(r);
    ghost var s1, f1 := r.bytes, r.fail;
    var payer: Option<Bytes32> := None;
    if to.Some? { payer := ReadBytes32(r); }
    ghost var s2, f2 := r.bytes, r.fail;
    var tokenId: Option<U64> := None;
    if payer.Some? { tokenId := ReadU64(r); }
    ghost var s3, f3 := r.bytes, r.fail;
    var instanceId: Option<U64> := None;
    if tokenId.Some? { instanceId := ReadU64(r); }
    if payer.Some? { PairReads(U64Codec(), U64Codec(), s2, s3, r.bytes, f3, r.fail, tokenId, instanceId); }
    if to.Some? { PairReads(Bytes32Codec(), Pair(U64Codec(), U64Codec()), s1, s2, r.bytes, f2, r.fail, payer, if instanceId.Some? then Some((tokenId.value, instanceId.value)) else None); }
    PairReads(Bytes32Codec(), Pair(Bytes32Codec(), Pair(U64Codec(), U64Codec())), s0, s1, r.bytes, f1, r.fail, to, if instanceId.Some? then Some((payer.value, (tokenId.value, instanceId.value))) else None);
    StructReads(TransferNftSingleGasPayerFields(), ToTransferNftSingleGasPayer, OfTransferNftSingleGasPayer, s0, r.bytes, r.fail, if instanceId.Some? then Some((to.value, (payer.value, (tokenId.value, instanceId.value)))) else None);
    out := if instanceId.Some? then Some(TransferNftSingleGasPayer(to.value, payer.value, tokenId.value, instanceId.value)) else None;
  }

  method WriteTransferNftSingleGasPayer(x: TransferNftSingleGasPayer, w: WriteView)
    modifies w
    ensures w.m == old(w.m) + TransferNftSingleGasPayerCodec().enc(x)
  {
    hide Bytes32Codec, Bytes64Codec, U32Codec, U64Codec, SmallStringCodec, Counted, InstanceIdsCodec, IntXCodec, Pair, Struct, InInt256;
    StructImage(TransferNftSingleGasPayerFields(), ToTransferNftSingleGasPayer, OfTransferNftSingleGasPayer, x);
    PairImage(Bytes32Codec(), Pair(Bytes32Codec(), Pair(U64Codec(), U64Codec())), x.to, (x.payer, (x.tokenId, x.instanceId)), w.m);
    WriteBytes32(x.to, w);
    PairImage(Bytes32Codec(), Pair(U64Codec(), U64Codec()), x.payer, (x.tokenId, x.instanceId), w.m);
    WriteBytes32(x.payer, w);
    PairImage(U64Codec(), U64Codec(), x.tokenId, x.instanceId, w.m);
    WriteU64(x.tokenId, w);
    WriteU64(x.instanceId, w);
  }

  // ---- TransferNftMulti ----

  method ReadTransferNftMulti(r: ReadView) returns (out: Option<TransferNftMulti>)
    requires !r.fail
    modifies r`bytes, r`fail
    ensures Reads(TransferNftMultiCodec(), old(r.bytes), r.bytes, r.fail, out)
    ensures out.Some? ==> !r.fail
  {
    hide Bytes32Codec, Bytes64Codec, U32Codec, U64Codec, SmallStringCodec, Counted, InstanceIdsCodec, IntXCodec, Pair, Struct, Reads;
    ghost var s0 := r.bytes;
    var to := ReadBytes32(r);
    ghost var s1, f1 := r.bytes, r.fail;
    var tokenId: Option<U64> := None;
    if to.Some? { tokenId := ReadU64(r); }
    ghost var s2, f2 := r.bytes, r.fail;
    var instanceIds: Option<seq<U64>> := None;
    if tokenId.Some? { instanceIds := ReadInstanceIds(r); }
    if to.Some? { PairReads(U64Codec(), InstanceIdsCodec(), s1, s2, r.bytes, f2, r.fail, tokenId, instanceIds); }
    PairReads(Bytes32Codec(), Pair(U64Codec(), InstanceIdsCodec()), s0, s1, r.bytes, f1, r.fail, to, if instanceIds.Some? then Some((tokenId.value, instanceIds.value)) else None);
    StructReads(TransferNftMultiFields(), ToTransferNftMulti, OfTransferNftMulti, s0, r.bytes, r.fail, if instanceIds.Some? then Some((to.value, (tokenId.value, instanceIds.value))) else None);
    out := if instanceIds.Some? then Some(TransferNftMulti(to.value, tokenId.value, instanceIds.value)) else None;
  }

  method WriteTransferNftMulti(x: TransferNftMulti, w: WriteView)
    modifies w
    ensures w.m == old(w.m) + TransferNftMultiCodec().enc(x)
  {
    hide Bytes32Codec, Bytes64Codec, U32Codec, U64Codec, SmallStringCodec, Counted, InstanceIdsCodec, IntXCodec, Pair, Struct, InInt256;
    StructImage(TransferNftMultiFields(), ToTransferNftMulti, OfTransferNftMulti, x);
    PairImage(Bytes32Codec(), Pair(U64Codec(), InstanceIdsCodec()), x.to, (x.tokenId, x.instanceIds), w.m);
    WriteBytes32(x.to, w);
    PairImage(U64Codec(), InstanceIdsCodec(), x.tokenId, x.instanceIds, w.m);
    WriteU64(x.tokenId, w);
    WriteInstanceIds(x.instanceIds, w);
  }

  // ---- TransferNftMultiGasPayer ----

  method ReadTransferNftMultiGasPayer(r: ReadView) returns (out: Option<TransferNftMultiGasPayer>)
    requires !r.fail
    modifies r`bytes, r`fail
    ensures Reads(TransferNftMultiGasPayerCodec(), old(r.bytes), r.bytes, r.fail, out)
    ensures out.Some? ==> !r.fail
  {
    hide Bytes32Codec, Bytes64Codec, U32Codec, U64Codec, SmallStringCodec, Counted, InstanceIdsCodec, IntXCodec, Pair, Struct, Reads;
    ghost var s0 := r.bytes;
    var to := ReadBytes32(r);
    ghost var s1, f1 := r.bytes, r.fail;
    var payer: Option<Bytes32> := None;
    if to.Some? { payer := ReadBytes32(r); }
    ghost var s2, f2 := r.bytes, r.fail;
    var tokenId: Option<U64> := None;
    if payer.Some? { tokenId := ReadU64(r); }
    ghost var s3, f3 := r.bytes, r.fail;
    var instanceIds: Option<seq<U64>> := None;
    if tokenId.Some? { instanceIds := ReadInstanceIds(r); }
    if payer.Some? { PairReads(U64Codec(), InstanceIdsCodec(), s2, s3, r.bytes, f3, r.fail, tokenId, instanceIds); }
    if to.Some? { PairReads(Bytes32Codec(), Pair(U64Codec(), InstanceIdsCodec()), s1, s2, r.bytes, f2, r.fail, payer, if instanceIds.Some? then Some((tokenId.value, instanceIds.value)) else None); }
    PairReads(Bytes32Codec(), Pair(Bytes32Codec(), Pair(U64Codec(), InstanceIdsCodec())), s0, s1, r.bytes, f1, r.fail, to, if instanceIds.Some? then Some((payer.value, (tokenId.value, instanceIds.value))) else None);
    StructReads(TransferNftMultiGasPayerFields(), ToTransferNftMultiGasPayer, OfTransferNftMultiGasPayer, s0, r.bytes, r.fail, if instanceIds.Some? then Some((to.value, (payer.value, (tokenId.value, instanceIds.value)))) else None);
    out := if instanceIds.Some? then Some(TransferNftMultiGasPayer(to.value, payer.value, tokenId.value, instanceIds.value)) else None;
  }

  method WriteTransferNftMultiGasPayer(x: TransferNftMultiGasPayer, w: WriteView)
    modifies w
    ensures w.m == old(w.m) + TransferNftMultiGasPayerCodec().enc(x)
  {
    hide Bytes32Codec, Bytes64Codec, U32Codec, U64Codec, SmallStringCodec, Counted, InstanceIdsCodec, IntXCodec, Pair, Struct, InInt256;
    StructImage(TransferNftMultiGasPayerFields(), ToTransferNftMultiGasPayer, OfTransferNftMultiGasPayer, x);
    PairImage(Bytes32Codec(), Pair(Bytes32Codec(), Pair(U64Codec(), InstanceIdsCodec())), x.to, (x.payer, (x.tokenId, x.instanceIds)), w.m);
    WriteBytes32(x.to, w);
    PairImage(Bytes32Codec(), Pair(U64Codec(), InstanceIdsCodec()), x.payer, (x.tokenId, x.instanceIds), w.m);
    WriteBytes32(x.payer, w);
    PairImage(U64Codec(), InstanceIdsCodec(), x.tokenId, x.instanceIds, w.m);
    WriteU64(x.tokenId, w);
    WriteInstanceIds(x.instanceIds, w);
  }

  // ---- MintFt ----

  method ReadMintFt(r: ReadView) returns (out: Option<MintFt>)
    requires !r.fail && !r.relaxed
    modifies r`bytes, r`fail, r`nonStandard
    ensures Reads(MintFtCodec(), old(r.bytes), r.bytes, r.fail, out)
    ensures out.Some? ==> !r.fail
  {
    hide Bytes32Codec, Bytes64Codec, U32Codec, U64Codec, SmallStringCodec, Counted, InstanceIdsCodec, IntXCodec, Pair, Struct, Reads;
    ghost var s0 := r.bytes;
    var tokenId := ReadU64(r);
    ghost var s1, f1 := r.bytes, r.fail;
    var to: Option<Bytes32> := None;
    if tokenId.Some? { to := ReadBytes32(r); }
    ghost var s2, f2 := r.bytes, r.fail;
    var amount: Option<int> := None;
    if to.Some? { amount := ReadAmount(r); }
    if tokenId.Some? { PairReads(Bytes32Codec(), IntXCodec(), s1, s2, r.bytes, f2, r.fail, to, amount); }
    PairReads(U64Codec(), Pair(Bytes32Codec(), IntXCodec()), s0, s1, r.bytes, f1, r.fail, tokenId, if amount.Some? then Some((to.value, amount.value)) else None);
    StructReads(MintFtFields(), ToMintFt, OfMintFt, s0, r.bytes, r.fail, if amount.Some? then Some((tokenId.value, (to.value, amount.value))) else None);
    out := if amount.Some? then Some(MintFt(tokenId.value, amount.value, to.value)) else None;
  }

  method WriteMintFt(x: MintFt, w: WriteView)
    requires InInt256(x.amount)
    modifies w
    ensures w.m == old(w.m) + MintFtCodec().enc(x)
  {
    hide Bytes32Codec, Bytes64Codec, U32Codec, U64Codec, SmallStringCodec, Counted, InstanceIdsCodec, IntXCodec, Pair, Struct, InInt256;
    StructImage(MintFtFields(), ToMintFt, OfMintFt, x);
    PairImage(U64Codec(), Pair(Bytes32Codec(), IntXCodec()), x.tokenId, (x.to, x.amount), w.m);
    WriteU64(x.tokenId, w);
    PairImage(Bytes32Codec(), IntXCodec(), x.to, x.amount, w.m);
    WriteBytes32(x.to, w);
    WriteAmount(x.amount, w);
  }

  // ---- BurnFt ----

  method ReadBurnFt(r: ReadView) returns (out: Option<BurnFt>)
    requires !r.fail && !r.relaxed
    modifies r`bytes, r`fail, r`nonStandard
    ensures Reads(BurnFtCodec(), old(r.bytes), r.bytes, r.fail, out)
    ensures out.Some? ==> !r.fail
  {
    hide Bytes32Codec, Bytes64Codec, U32Codec, U64Codec, SmallStringCodec, Counted, InstanceIdsCodec, IntXCodec, Pair, Struct, Reads;
    ghost var s0 := r.bytes;
    var tokenId := ReadU64(r);
    ghost var s1, f1 := r.bytes, r.fail;
    var amount: Option<int> := None;
    if tokenId.Some? { amount := ReadAmount(r); }
    PairReads(U64Codec(), IntXCodec(), s0, s1, r.bytes, f1, r.fail, tokenId, amount);
    StructReads(BurnFtFields(), ToBurnFt, OfBurnFt, s0, r.bytes, r.fail, if amount.Some? then Some((tokenId.value, amount.value)) else None);
    out := if amount.Some? then Some(BurnFt(tokenId.value, amount.value)) else None;
  }

  method WriteBurnFt(x: BurnFt, w: WriteView)
    requires InInt256(x.amount)
    modifies w
    ensures w.m == old(w.m) + BurnFtCodec().enc(x)
  {
    hide Bytes32Codec, Bytes64Codec, U32Codec, U64Codec, SmallStringCodec, Counted, InstanceIdsCodec, IntXCodec, Pair, Struct, InInt256;
    StructImage(BurnFtFields(), ToBurnFt, OfBurnFt, x);
    PairImage(U64Codec(), IntXCodec(), x.tokenId, x.amount, w.m);
    WriteU64(x.tokenId, w);
    WriteAmount(x.amount, w);
  }

  // ---- BurnFtGasPayer ----

  method ReadBurnFtGasPayer(r: ReadView) returns (out: Option<BurnFtGasPayer>)
    requires !r.fail && !r.relaxed
    modifies r`bytes, r`fail, r`nonStandard
    ensures Reads(BurnFtGasPayerCodec(), old(r.bytes), r.bytes, r.fail, out)
    ensures out.Some? ==> !r.fail
  {
    hide Bytes32Codec, Bytes64Codec, U32Codec, U64Codec, SmallStringCodec, Counted, InstanceIdsCodec, IntXCodec, Pair, Struct, Reads;
    ghost var s0 := r.bytes;
    var tokenId := ReadU64(r);
    ghost var s1, f1 := r.bytes, r.fail;
    var payer: Option<Bytes32> := None;
    if tokenId.Some? { payer := ReadBytes32(r); }
    ghost var s2, f2 := r.bytes, r.fail;
    var amount: Option<int> := None;
    if payer.Some? { amount := ReadAmount(r); }
    if tokenId.Some? { PairReads(Bytes32Codec(), IntXCodec(), s1, s2, r.bytes, f2, r.fail, payer, amount); }
    PairReads(U64Codec(), Pair(Bytes32Codec(), IntXCodec()), s0, s1, r.bytes, f1, r.fail, tokenId, if amount.Some? then Some((payer.value, amount.value)) else None);
    StructReads(BurnFtGasPayerFields(), ToBurnFtGasPayer, OfBurnFtGasPayer, s0, r.bytes, r.fail, if amount.Some? then Some((tokenId.value, (payer.value, amount.value))) else None);
    out := if amount.Some? then Some(BurnFtGasPayer(tokenId.value, amount.value, payer.value)) else None;
  }

  method WriteBurnFtGasPayer(x: BurnFtGasPayer, w: WriteView)
    requires InInt256(x.amount)
    modifies w
    ensures w.m == old(w.m) + BurnFtGasPayerCodec().enc(x)
  {
    hide Bytes32Codec, Bytes64Codec, U32Codec, U64Codec, SmallStringCodec, Counted, InstanceIdsCodec, IntXCodec, Pair, Struct, InInt256;
    StructImage(BurnFtGasPayerFields(), ToBurnFtGasPayer, OfBurnFtGasPayer, x);
    PairImage(U64Codec(), Pair(Bytes32Codec(), IntXCodec()), x.tokenId, (x.payer, x.amount), w.m);
    WriteU64(x.tokenId, w);
    PairImage(Bytes32Codec(), IntXCodec(), x.payer, x.amount, w.m);
    WriteBytes32(x.payer, w);
    WriteAmount(x.amount, w);
  }

  // ---- MintNft ----

  method ReadMintNft(r: ReadView) returns (out: Option<MintNft>)
    requires !r.fail
    modifies r`bytes, r`fail
    ensures Reads(MintNftCodec(), old(r.bytes), r.bytes, r.fail, out)
    ensures out.Some? ==> !r.fail
  {
    hide Bytes32Codec, Bytes64Codec, U32Codec, U64Codec, SmallStringCodec, Counted, InstanceIdsCodec, IntXCodec, Pair, Struct, Reads;
    ghost var s0 := r.bytes;
    var tokenId := ReadU64(r);
    ghost var s1, f1 := r.bytes, r.fail;
    var to: Option<Bytes32> := None;
    if tokenId.Some? { to := ReadBytes32(r); }
    ghost var s2, f2 := r.bytes, r.fail;
    var seriesId: Option<U32> := None;
    if to.Some? { seriesId := ReadU32(r); }
    ghost var s3, f3 := r.bytes, r.fail;
    var rom: Option<seq<Byte>> := None;
    if seriesId.Some? { rom := ReadCounted(r); }
    ghost var s4, f4 := r.bytes, r.fail;
    var ram: Option<seq<Byte>> := None;
    if rom.Some? { ram := ReadCounted(r); }
    if seriesId.Some? { PairReads(Counted(), Counted(), s3, s4, r.bytes, f4, r.fail, rom, ram); }
    if to.Some? { PairReads(U32Codec(), Pair(Counted(), Counted()), s2, s3, r.bytes, f3, r.fail, seriesId, if ram.Some? then Some((rom.value, ram.value)) else None); }
    if tokenId.Some? { PairReads(Bytes32Codec(), Pair(U32Codec(), Pair(Counted(), Counted())), s1, s2, r.bytes, f2, r.fail, to, if ram.Some? then Some((seriesId.value, (rom.value, ram.value))) else None); }
    PairReads(U64Codec(), Pair(Bytes32Codec(), Pair(U32Codec(), Pair(Counted(), Counted()))), s0, s1, r.bytes, f1, r.fail, tokenId, if ram.Some? then Some((to.value, (seriesId.value, (rom.value, ram.value)))) else None);
    StructReads(MintNftFields(), ToMintNft, OfMintNft, s0, r.bytes, r.fail, if ram.Some? then Some((tokenId.value, (to.value, (seriesId.value, (rom.value, ram.value))))) else None);
    out := if ram.Some? then Some(MintNft(tokenId.value, to.value, seriesId.value, rom.value, ram.value)) else None;
  }

  method WriteMintNft(x: MintNft, w: WriteView)
    modifies w
    ensures w.m == old(w.m) + MintNftCodec().enc(x)
  {
    hide Bytes32Codec, Bytes64Codec, U32Codec, U64Codec, SmallStringCodec, Counted, InstanceIdsCodec, IntXCodec, Pair, Struct, InInt256;
    StructImage(MintNftFields(), ToMintNft, OfMintNft, x);
    PairImage(U64Codec(), Pair(Bytes32Codec(), Pair(U32Codec(), Pair(Counted(), Counted()))), x.tokenId, (x.to, (x.seriesId, (x.rom, x.ram))), w.m);
    WriteU64(x.tokenId, w);
    PairImage(Bytes32Codec(), Pair(U32Codec(), Pair(Counted(), Counted())), x.to, (x.seriesId, (x.rom, x.ram)), w.m);
    WriteBytes32(x.to, w);
    PairImage(U32Codec(), Pair(Counted(), Counted()), x.seriesId, (x.rom, x.ram), w.m);
    WriteU32(x.seriesId, w);
    PairImage(Counted(), Counted(), x.rom, x.ram, w.m);
    WriteCounted(x.rom, w);
    WriteCounted(x.ram, w);
  }

  // ---- BurnNft ----

  method ReadBurnNft(r: ReadView) returns (out: Option<BurnNft>)
    requires !r.fail
    modifies r`bytes, r`fail
    ensures Reads(BurnNftCodec(), old(r.bytes), r.bytes, r.fail, out)
    ensures out.Some? ==> !r.fail
  {
    hide Bytes32Codec, Bytes64Codec, U32Codec, U64Codec, SmallStringCodec, Counted, InstanceIdsCodec, IntXCodec, Pair, Struct, Reads;
    ghost var s0 := r.bytes;
    var tokenId := ReadU64(r);
    ghost var s1, f1 := r.bytes, r.fail;
    var instanceId: Option<U64> := None;
    if tokenId.Some? { instanceId := ReadU64(r); }
    PairReads(U64Codec(), U64Codec(), s0, s1, r.bytes, f1, r.fail, tokenId, instanceId);
    StructReads(BurnNftFields(), ToBurnNft, OfBurnNft, s0, r.bytes, r.fail, if instanceId.Some? then Some((tokenId.value, instanceId.value)) else None);
    out := if instanceId.Some? then Some(BurnNft(tokenId.value, instanceId.value)) else None;
  }

  method WriteBurnNft(x: BurnNft, w: WriteView)
    modifies w
    ensures w.m == old(w.m) + BurnNftCodec().enc(x)
  {
    hide Bytes32Codec, Bytes64Codec, U32Codec, U64Codec, SmallStringCodec, Counted, InstanceIdsCodec, IntXCodec, Pair, Struct, InInt256;
    StructImage(BurnNftFields(), ToBurnNft, OfBurnNft, x);
    PairImage(U64Codec(), U64Codec(), x.tokenId, x.instanceId, w.m);
    WriteU64(x.tokenId, w);
    WriteU64(x.instanceId, w);
  }

  // ---- BurnNftGasPayer ----

  method ReadBurnNftGasPayer(r: ReadView) returns (out: Option<BurnNftGasPayer>)
    requires !r.fail
    modifies r`bytes, r`fail
    ensures Reads(BurnNftGasPayerCodec(), old(r.bytes), r.bytes, r.fail, out)
    ensures out.Some? ==> !r.fail
  {
    hide Bytes32Codec, Bytes64Codec, U32Codec, U64Codec, SmallStringCodec, Counted, InstanceIdsCodec, IntXCodec, Pair, Struct, Reads;
    ghost var s0 := r.bytes;
    var tokenId := ReadU64(r);
    ghost var s1, f1 := r.bytes, r.fail;
    var payer: Option<Bytes32> := None;
    if tokenId.Some? { payer := ReadBytes32(r); }
    ghost var s2, f2 := r.bytes, r.fail;
    var instanceId: Option<U64> := None;
    if payer.Some? { instanceId := ReadU64(r); }
    if tokenId.Some? { PairReads(Bytes32Codec(), U64Codec(), s1, s2, r.bytes, f2, r.fail, payer, instanceId); }
    PairReads(U64Codec(), Pair(Bytes32Codec(), U64Codec()), s0, s1, r.bytes, f1, r.fail, tokenId, if instanceId.Some? then Some((payer.value, instanceId.value)) else None);
    StructReads(BurnNftGasPayerFields(), ToBurnNftGasPayer, OfBurnNftGasPayer, s0, r.bytes, r.fail, if instanceId.Some? then Some((tokenId.value, (payer.value, instanceId.value))) else None);
    out := if instanceId.Some? then Some(BurnNftGasPayer(tokenId.value, payer.value, instanceId.value)) else None;
  }

  method WriteBurnNftGasPayer(x: BurnNftGasPayer, w: WriteView)
    modifies w
    ensures w.m == old(w.m) + BurnNftGasPayerCodec().enc(x)
  {
    hide Bytes32Codec, Bytes64Codec, U32Codec, U64Codec, SmallStringCodec, Counted, InstanceIdsCodec, IntXCodec, Pair, Struct, InInt256;
    StructImage(BurnNftGasPayerFields(), ToBurnNftGasPayer, OfBurnNftGasPayer, x);
    PairImage(U64Codec(), Pair(Bytes32Codec(), U64Codec()), x.tokenId, (x.payer, x.instanceId), w.m);
    WriteU64(x.tokenId, w);
    PairImage(Bytes32Codec(), U64Codec(), x.payer, x.instanceId, w.m);
    WriteBytes32(x.payer, w);
    WriteU64(x.instanceId, w);
  }

  // ---- PhantasmaMsg ----

  method ReadPhantasmaMsg(r: ReadView) returns (out: Option<PhantasmaMsg>)
    requires !r.fail
    modifies r`bytes, r`fail
    ensures Reads(PhantasmaMsgCodec(), old(r.bytes), r.bytes, r.fail, out)
    ensures out.Some? ==> !r.fail
  {
    hide Bytes32Codec, Bytes64Codec, U32Codec, U64Codec, SmallStringCodec, Counted, InstanceIdsCodec, IntXCodec, Pair, Struct, Reads;
    ghost var s0 := r.bytes;
    var nexus := ReadSmallString(r);
    ghost var s1, f1 := r.bytes, r.fail;
    var chain: Option<SmallString> := None;
    if nexus.Some? { chain := ReadSmallString(r); }
    ghost var s2, f2 := r.bytes, r.fail;
    var script: Option<seq<Byte>> := None;
    if chain.Some? { script := ReadCounted(r); }
    if nexus.Some? { PairReads(SmallStringCodec(), Counted(), s1, s2, r.bytes, f2, r.fail, chain, script); }
    PairReads(SmallStringCodec(), Pair(SmallStringCodec(), Counted()), s0, s1, r.bytes, f1, r.fail, nexus, if script.Some? then Some((chain.value, script.value)) else None);
    StructReads(PhantasmaMsgFields(), ToPhantasmaMsg, OfPhantasmaMsg, s0, r.bytes, r.fail, if script.Some? then Some((nexus.value, (chain.value, script.value))) else None);
    out := if script.Some? then Some(PhantasmaMsg(nexus.value, chain.value, script.value)) else None;
  }

  method WritePhantasmaMsg(x: PhantasmaMsg, w: WriteView)
    modifies w
    ensures w.m == old(w.m) + PhantasmaMsgCodec().enc(x)
  {
    hide Bytes32Codec, Bytes64Codec, U32Codec, U64Codec, SmallStringCodec, Counted, InstanceIdsCodec, IntXCodec, Pair, Struct, InInt256;
    StructImage(PhantasmaMsgFields(), ToPhantasmaMsg, OfPhantasmaMsg, x);
    PairImage(SmallStringCodec(), Pair(SmallStringCodec(), Counted()), x.nexus, (x.chain, x.script), w.m);
    WriteSmallString(x.nexus, w);
    PairImage(SmallStringCodec(), Counted(), x.chain, x.script, w.m);
    WriteSmallString(x.chain, w);
    WriteCounted(x.script, w);
  }

  // ---- Witness ----

  method ReadWitness(r: ReadView) returns (out: Option<Witness>)
    requires !r.fail
    modifies r`bytes, r`fail
    ensures Reads(WitnessCodec(), old(r.bytes), r.bytes, r.fail, out)
    ensures out.Some? ==> !r.fail
  {
    hide Bytes32Codec, Bytes64Codec, U32Codec, U64Codec, SmallStringCodec, Counted, InstanceIdsCodec, IntXCodec, Pair, Struct, Reads;
    ghost var s0 := r.bytes;
    var address := ReadBytes32(r);
    ghost var s1, f1 := r.bytes, r.fail;
    var signature: Option<Bytes64> := None;
    if address.Some? { signature := ReadBytes64(r); }
    PairReads(Bytes32Codec(), Bytes64Codec(), s0, s1, r.bytes, f1, r.fail, address, signature);
    StructReads(WitnessFields(), ToWitness, OfWitness, s0, r.bytes, r.fail, if signature.Some? then Some((address.value, signature.value)) else None);
    out := if signature.Some? then Some(Witness(address.value, signature.value)) else None;
  }

  method WriteWitness(x: Witness, w: WriteView)
    modifies w
    ensures w.m == old(w.m) + WitnessCodec().enc(x)
  {
    hide Bytes32Codec, Bytes64Codec, U32Codec, U64Codec, SmallStringCodec, Counted, InstanceIdsCodec, IntXCodec, Pair, Struct, InInt256;
    StructImage(WitnessFields(), ToWitness, OfWitness, x);
    PairImage(Bytes32Codec(), Bytes64Codec(), x.address, x.signature, w.m);
    WriteBytes32(x.address, w);
    WriteBytes64(x.signature, w);
  }
}
