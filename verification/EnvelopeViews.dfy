/** Reading and writing messages and signed envelopes on views, and the two parse entry points. */
module EnvelopeViews {
  import opened Wrappers
  import opened Words64
  import opened Codecs
  import opened WireFormat
  import opened Messages
  import opened MessageCodecs
  import opened BodyCodecs
  import opened Envelope
  import opened Views
  import opened PayloadViews
  import opened TxViews
  import Layouts

  // ---- the message --------------------------------------------------------------------------

  method ReadHeader(r: ReadView) returns (out: Option<Header>)
    requires !r.fail
    modifies r`bytes, r`fail
    ensures Reads(HeaderCodec(), old(r.bytes), r.bytes, r.fail, out)
    ensures out.Some? ==> !r.fail
  {
    hide U8Codec, I64Codec, U64Codec, Bytes32Codec, SmallStringCodec, Pair, Reads;
    ghost var s0 := r.bytes;
    var tag := ReadU8(r);
    ghost var s1, f1 := r.bytes, r.fail;
    var expiry: Option<I64> := None;
    if tag.Some? { expiry := ReadI64(r); }
    ghost var s2, f2 := r.bytes, r.fail;
    var maxGas: Option<U64> := None;
    if expiry.Some? { maxGas := ReadU64(r); }
    ghost var s3, f3 := r.bytes, r.fail;
    var maxData: Option<U64> := None;
    if maxGas.Some? { maxData := ReadU64(r); }
    ghost var s4, f4 := r.bytes, r.fail;
    var gasFrom: Option<Bytes32> := None;
    if maxData.Some? { gasFrom := ReadBytes32(r); }
    ghost var s5, f5 := r.bytes, r.fail;
    var payload: Option<SmallString> := None;
    if gasFrom.Some? { payload := ReadSmallString(r); }
    if maxData.Some? { PairReads(Bytes32Codec(), SmallStringCodec(), s4, s5, r.bytes, f5, r.fail, gasFrom, payload); }
    var p4 := if payload.Some? then Some((gasFrom.value, payload.value)) else None;
    if maxGas.Some? { PairReads(U64Codec(), Pair(Bytes32Codec(), SmallStringCodec()), s3, s4, r.bytes, f4, r.fail, maxData, p4); }
    var p3 := if p4.Some? then Some((maxData.value, p4.value)) else None;
    if expiry.Some? {
      PairReads(U64Codec(), Pair(U64Codec(), Pair(Bytes32Codec(), SmallStringCodec())), s2, s3, r.bytes, f3, r.fail, maxGas, p3);
    }
    var p2 := if p3.Some? then Some((maxGas.value, p3.value)) else None;
    if tag.Some? {
      PairReads(I64Codec(), Pair(U64Codec(), Pair(U64Codec(), Pair(Bytes32Codec(), SmallStringCodec()))), s1, s2, r.bytes, f2, r.fail, expiry, p2);
    }
    var p1 := if p2.Some? then Some((expiry.value, p2.value)) else None;
    PairReads(U8Codec(), Pair(I64Codec(), Pair(U64Codec(), Pair(U64Codec(), Pair(Bytes32Codec(), SmallStringCodec())))), s0, s1, r.bytes,
              f1, r.fail, tag, p1);
    out := if p1.Some? then Some((tag.value, p1.value)) else None;
  }

  /** The header every type carries, then the payload of the type its first byte names. */
  method ReadTx(r: ReadView) returns (out: Option<TxMsg>)
    requires !r.fail && !r.relaxed
    modifies r`bytes, r`fail, r`nonStandard
    ensures Reads(TxCodec(), old(r.bytes), r.bytes, r.fail, out)
    ensures out.Some? ==> !r.fail
  {
    hide HeaderCodec, BodyCodec, Chain, Mapped, Reads;
    ghost var s0 := r.bytes;
    var header := ReadHeader(r);
    ghost var s1, f1 := r.bytes, r.fail;
    var body: Option<TxBody> := None;
    if header.Some? { body := ReadBody(header.value.0, r); }
    var parts := if body.Some? then Some((header.value, body.value)) else None;
    ChainReads(HeaderCodec(), (h: Header) => BodyCodec(h.0), 0, s0, s1, r.bytes, f1, r.fail, header, body);
    MappedReads(TxParts(), ToTx, OfTx, (m: TxMsg) => BodyCodec(TypeOf(m.body)).fits(m.body), s0, r.bytes, r.fail, parts);
    out := if parts.Some? then Some(ToTx(parts.value)) else None;
  }

  method WriteTx(msg: TxMsg, w: WriteView)
    requires AmountsFit(msg.body)
    modifies w
    ensures w.m == old(w.m) + SerializeTx(msg)
  {
    hide BodyCodec, U8Codec, I64Codec, U64Codec, Bytes32Codec, SmallStringCodec, Pair, AmountsFit, TypeOf, TxCodec;
    TxImageIs(msg, w.m);
    HeaderImage(OfTx(msg).0, w.m);
    WriteU8(TypeOf(msg.body), w);
    WriteI64(msg.expiry, w);
    WriteU64(msg.maxGas, w);
    WriteU64(msg.maxData, w);
    WriteBytes32(msg.gasFrom, w);
    WriteSmallString(msg.payload, w);
    WriteBody(msg.body, w);
  }

  lemma TxImageIs(msg: TxMsg, m: seq<Byte>)
    ensures m + SerializeTx(msg) == m + HeaderCodec().enc(OfTx(msg).0) + BodyCodec(TypeOf(msg.body)).enc(msg.body)
  {
    hide HeaderCodec, BodyCodec, TypeOf;
    Appended(m, HeaderCodec().enc(OfTx(msg).0), BodyCodec(TypeOf(msg.body)).enc(msg.body));
  }

  lemma HeaderImage(h: Header, m: seq<Byte>)
    ensures m + HeaderCodec().enc(h) ==
      m + U8Codec().enc(h.0) + I64Codec().enc(h.1.0) + U64Codec().enc(h.1.1.0) + U64Codec().enc(h.1.1.1.0)
        + Bytes32Codec().enc(h.1.1.1.1.0) + SmallStringCodec().enc(h.1.1.1.1.1)
  {
    hide U8Codec, I64Codec, U64Codec, Bytes32Codec, SmallStringCodec, Pair;
    var a := Pair(Bytes32Codec(), SmallStringCodec());
    var m1 := m + U8Codec().enc(h.0);
    var m2 := m1 + I64Codec().enc(h.1.0);
    var m3 := m2 + U64Codec().enc(h.1.1.0);
    var m4 := m3 + U64Codec().enc(h.1.1.1.0);
    PairImage(U8Codec(), Pair(I64Codec(), Pair(U64Codec(), Pair(U64Codec(), a))), h.0, h.1, m);
    PairImage(I64Codec(), Pair(U64Codec(), Pair(U64Codec(), a)), h.1.0, h.1.1, m1);
    PairImage(U64Codec(), Pair(U64Codec(), a), h.1.1.0, h.1.1.1, m2);
    PairImage(U64Codec(), a, h.1.1.1.0, h.1.1.1.1, m3);
    PairImage(Bytes32Codec(), SmallStringCodec(), h.1.1.1.1.0, h.1.1.1.1.1, m4);
  }

  // ---- witnesses ----------------------------------------------------------------------------

  /** A counted array of address plus signature. */
  method ReadWitnessList(r: ReadView) returns (out: Option<seq<Witness>>)
    requires !r.fail
    modifies r`bytes, r`fail
    ensures Reads(ArrayOf(WitnessCodec(), 96), old(r.bytes), r.bytes, r.fail, out)
    ensures out.Some? ==> !r.fail
  {
    hide Reads, ArrayOf, LengthDec, ReadSoFar, WitnessCodec;
    ghost var s, c := r.bytes, WitnessCodec();
    LengthIsFour(s, 96);
    var len := ReadArrayLength(r, 96);
    if len.None? {
      NoLength(c, 96, s, r.bytes, r.fail);
      return None;
    }
    ghost var body := r.bytes;
    var items: seq<Witness> := [];
    NoneRead(c, body);
    var i: nat := 0;
    while i != len.value
      invariant i <= len.value && !r.fail && ReadSoFar(c, body, i, items, r.bytes)
    {
      ghost var before := r.bytes;
      var item := ReadWitness(r);
      OneMore(c, body, i, items, before, r.bytes, r.fail, item);
      if item.None? {
        SomeRefused(c, 96, s, i + 1, len.value, r.bytes, r.fail);
        return None;
      }
      items := items + [item.value];
      i := i + 1;
    }
    AllRead(c, 96, s, len.value, items, r.bytes);
    out := Some(items);
  }

  /** The witnesses in the layout of the message's type; bare signatures are attributed to the
      signers the message names. */
  method ReadWitnesses(msg: TxMsg, r: ReadView) returns (out: Option<seq<Witness>>)
    requires !r.fail
    modifies r`bytes, r`fail
    ensures Reads(WitnessesCodec(msg), old(r.bytes), r.bytes, r.fail, out)
    ensures out.Some? ==> !r.fail
    ensures out.Some? ==> Layouts.SignedRightly(SignedTxMsg(msg, out.value)) && old(r.bytes) == Layouts.WitnessPart(msg.body, out.value) + r.bytes
  {
    WitnessesRead(msg, r.bytes);
    hide Layouts.WitnessPart, Layouts.SignedRightly, Bytes64Codec, WitnessCodec, Reads, Pair, Variant, ArrayOf;
    var required := RequiredWitnessCount(msg.body);
    SecondSigner(msg.body);
    if required.None? {
      out := ReadWitnessList(r);
      return;
    }
    if required.value == 0 {
      NothingRead(r.bytes);
      return Some([]);
    }
    ghost var s0 := r.bytes;
    var first := ReadBytes64(r);
    ghost var s1, f1 := r.bytes, r.fail;
    if required.value == 1 {
      VariantReads(Bytes64Codec(), (s: Bytes64) => SignedBy(msg.gasFrom, s), (ws: seq<Witness>) => SoleSignature(msg.gasFrom, ws),
                   s0, r.bytes, r.fail, first);
      return if first.None? then None else Some([Witness(msg.gasFrom, first.value)]);
    }
    var owner := TryGetGasPayerFrom(msg.body).value;
    var second: Option<Bytes64> := None;
    if first.Some? { second := ReadBytes64(r); }
    var both := if second.Some? then Some((first.value, second.value)) else None;
    PairReads(Bytes64Codec(), Bytes64Codec(), s0, s1, r.bytes, f1, r.fail, first, second);
    VariantReads(TwoSignatures(), (s: (Bytes64, Bytes64)) => SignedByBoth(msg.gasFrom, owner, s),
                 (ws: seq<Witness>) => BothSignatures(msg.gasFrom, owner, ws), s0, r.bytes, r.fail, both);
    out := if both.Some? then Some([Witness(msg.gasFrom, first.value), Witness(owner, second.value)]) else None;
  }

  lemma WitnessesRead(msg: TxMsg, s: seq<Byte>)
    ensures forall after: seq<Byte>, fail: bool, out: Option<seq<Witness>> :: Reads(WitnessesCodec(msg), s, after, fail, out) && out.Some? ==>
      Layouts.SignedRightly(SignedTxMsg(msg, out.value)) && s == Layouts.WitnessPart(msg.body, out.value) + after
  {
    hide WitnessesCodec, Layouts.WitnessPart, Layouts.SignedRightly;
    if WitnessesCodec(msg).dec(s).Some? { Layouts.WitnessesTaken(msg, s); }
  }

  lemma NothingRead(s: seq<Byte>)
    ensures Reads(NoWitnesses(), s, s, false, Some([]))
  {
  }

  method WriteWitnessList(items: seq<Witness>, w: WriteView)
    modifies w
    ensures w.m == old(w.m) + ArrayOf(WitnessCodec(), 96).enc(items)
  {
    hide EncAll, LittleEndian, WitnessCodec;
    WriteWord(|items|, 4, w);
    ghost var start := w.m;
    var i: nat := 0;
    EncNone(WitnessCodec(), items);
    while i != |items|
      invariant i <= |items| && w.m == start + EncAll(WitnessCodec(), items[..i])
    {
      EncUpTo(WitnessCodec(), items, i);
      WriteWitness(items[i], w);
      i := i + 1;
    }
    assert items[..i] == items;
  }

  method WriteWitnesses(msg: TxMsg, ws: seq<Witness>, w: WriteView)
    requires WitnessesFit(msg, ws)
    modifies w
    ensures w.m == old(w.m) + WitnessesCodec(msg).enc(ws) == old(w.m) + Layouts.WitnessPart(msg.body, ws)
  {
    hide Layouts.WitnessPart, Bytes64Codec, WitnessCodec, ArrayOf, Pair;
    var required := RequiredWitnessCount(msg.body);
    SecondSigner(msg.body);
    Layouts.WitnessesWritten(msg, ws);
    if required.None? {
      WriteWitnessList(ws, w);
      return;
    }
    if required.value == 0 {
      return;
    }
    if required.value == 2 {
      PairImage(Bytes64Codec(), Bytes64Codec(), ws[0].signature, ws[1].signature, w.m);
    }
    WriteBytes64(ws[0].signature, w);
    if required.value == 2 {
      WriteBytes64(ws[1].signature, w);
    }
  }

  // ---- the signed envelope ------------------------------------------------------------------

  /** Reads an envelope and reports the part of it a signature is made over. */
  method ReadSigned(r: ReadView) returns (out: Option<SignedTxMsg>, signedPortion: seq<Byte>)
    requires !r.fail && !r.relaxed
    modifies r`bytes, r`fail, r`nonStandard
    ensures match ParseSigned(old(r.bytes)) {
      case None => out.None?
      case Some((m, portion, n)) => n <= |old(r.bytes)| && out == Some(m) && signedPortion == portion && r.bytes == old(r.bytes)[n..]
    }
  {
    hide TxCodec, WitnessesCodec, Chain, Struct, Reads;
    ghost var s0 := r.bytes;
    var begin := r.bytes;
    signedPortion := [];
    var msg := ReadTx(r);
    ghost var s1, f1 := r.bytes, r.fail;
    var witnesses: Option<seq<Witness>> := None;
    if msg.Some? {
      Remaining(TxCodec(), s0, s1, f1, msg);
      signedPortion := begin[..|begin| - |r.bytes|];
      witnesses := ReadWitnesses(msg.value, r);
    }
    ChainReads(TxCodec(), (m: TxMsg) => WitnessesCodec(m), 0, s0, s1, r.bytes, f1, r.fail, msg, witnesses);
    var parts := if witnesses.Some? then Some((msg.value, witnesses.value)) else None;
    StructReads(SignedParts(), ToSigned, OfSigned, s0, r.bytes, r.fail, parts);
    out := if parts.Some? then Some(ToSigned(parts.value)) else None;
    Outcome(SignedCodec(), s0, r.bytes, r.fail, out);
    Outcome(TxCodec(), s0, s1, f1, msg);
  }

  lemma Remaining<T(!new)>(c: Codec<T>, before: seq<Byte>, after: seq<Byte>, fail: bool, out: Option<T>)
    requires Reads(c, before, after, fail, out) && out.Some?
    ensures |after| <= |before|
  {
  }

  lemma Outcome<T(!new)>(c: Codec<T>, before: seq<Byte>, after: seq<Byte>, fail: bool, out: Option<T>)
    requires Reads(c, before, after, fail, out)
    ensures match c.dec(before) {
      case None => out.None?
      case Some((v, n)) => n <= |before| && out == Some(v) && after == before[n..] && |before| - |after| == n
    }
  {
  }

  method WriteSigned(m: SignedTxMsg, w: WriteView)
    requires AmountsFit(m.msg.body) && WitnessesFit(m.msg, m.witnesses)
    modifies w
    ensures w.m == old(w.m) + SignedCodec().enc(m)
  {
    hide TxCodec, SignedCodec, WitnessesCodec, WitnessesFit, AmountsFit;
    SignedShape(m);
    Appended(w.m, SerializeTx(m.msg), WitnessesCodec(m.msg).enc(m.witnesses));
    WriteTx(m.msg, w);
    WriteWitnesses(m.msg, m.witnesses, w);
  }

  // ---- entry points -------------------------------------------------------------------------

  /** ParseTx answers what the message codec reads off the front of the bytes. */
  method ParseTx(bytes: seq<Byte>) returns (out: Option<TxMsg>)
    ensures out.Some? <==> TxCodec().dec(bytes).Some?
    ensures out.Some? ==> out.value == TxCodec().dec(bytes).value.0
  {
    hide TxCodec;
    var r := new ReadView(bytes, false);
    out := ReadTx(r);
  }

  method ParseSignedTx(bytes: seq<Byte>) returns (out: Option<SignedTxMsg>, signedPortion: seq<Byte>)
    ensures out.Some? <==> ParseSigned(bytes).Some?
    ensures out.Some? ==> out.value == ParseSigned(bytes).value.0 && signedPortion == ParseSigned(bytes).value.1
  {
    hide ParseSigned;
    var r := new ReadView(bytes, false);
    out, signedPortion := ReadSigned(r);
  }

  /** Writing an envelope and parsing it back, on the views themselves. */
  method WriteThenParse(m: SignedTxMsg) returns (out: Option<SignedTxMsg>, signedPortion: seq<Byte>)
    requires WellFormedSigned(m)
    ensures out == Some(m) && signedPortion == SerializeTx(m.msg)
  {
    hide SignedCodec, TxCodec, ParseSigned, WitnessesFit;
    var w := new WriteView();
    WellFormedAmounts(m.msg.body);
    WriteSigned(m, w);
    EnvelopeRoundTrip(m, []);
    assert w.m == SignedCodec().enc(m) + [];
    out, signedPortion := ParseSignedTx(w.m);
  }

  lemma WellFormedAmounts(body: TxBody)
    requires WellFormed(body)
    ensures AmountsFit(body)
  {
  }
}
