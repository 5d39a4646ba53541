/** The call payload: its last word is a length when it is not negative, and otherwise the negated
    count of argument sections; a section is told apart the same way. */
module CallCodec {
  import opened Wrappers
  import opened Words64
  import opened Codecs
  import opened WireFormat
  import opened Messages

  function PeekI32(s: seq<Byte>): Option<I32> {
    if |s| < 4 then None else Some(AsI32(ToU32(s[..4])))
  }

  lemma PeekExtends(s: seq<Byte>, t: seq<Byte>)
    requires PeekI32(s).Some?
    ensures PeekI32(s + t) == PeekI32(s) && |s| >= 4 && FromI32(PeekI32(s).value) < 0x1_0000_0000
    ensures LittleEndian(FromI32(PeekI32(s).value), 4) == s[..4]
  {
    hide Number, LittleEndian;
    assert (s + t)[..4] == s[..4];
    BytePowers();
    NumberWritten(s[..4]);
  }

  lemma PeekWritten(x: I32, rest: seq<Byte>)
    ensures PeekI32(LittleEndian(FromI32(x), 4) + rest) == Some(x)
  {
    hide Number, LittleEndian;
    BytePowers();
    WrittenNumber(FromI32(x), 4);
    assert (LittleEndian(FromI32(x), 4) + rest)[..4] == LittleEndian(FromI32(x), 4);
  }

  /** A length that can be counted is one that peeks as not negative. */
  lemma CountedPeeks(s: seq<Byte>)
    requires CountedDec(s).Some?
    ensures PeekI32(s).Some? && PeekI32(s).value >= 0
  {
    hide Number;
    BytePowers();
    NumberWritten(s[..4]);
  }

  // ---- one section --------------------------------------------------------------------------

  function SectionEnc(x: MsgCallArgs): seq<Byte> {
    if x.registerOffset < 0 then LittleEndian(FromI32(x.registerOffset), 4) else Counted().enc(x.args)
  }

  function SectionDec(s: seq<Byte>): Answer<MsgCallArgs> {
    var value := PeekI32(s);
    if value.None? then None
    else if value.value >= 0 then
      match CountedDec(s) { case None => None case Some((args, n)) => Some((MsgCallArgs(0, args), n)) }
    else Some((MsgCallArgs(value.value, []), 4))
  }

  predicate SectionFits(x: MsgCallArgs) {
    (x.registerOffset < 0 && x.args == []) || (x.registerOffset == 0 && |x.args| < 0x8000_0000)
  }

  function SectionCodec(): Codec<MsgCallArgs> {
    Codec((x: MsgCallArgs) => SectionEnc(x), (s: seq<Byte>) => SectionDec(s), (x: MsgCallArgs) => SectionFits(x), 4)
  }

  lemma SectionLawful()
    ensures Lawful(SectionCodec()) && Canonical(SectionCodec())
  {
    hide PeekI32, CountedDec, Counted, LittleEndian;
    var c := SectionCodec();
    forall x: MsgCallArgs, rest: seq<Byte> | c.fits(x) ensures c.dec(c.enc(x) + rest) == Some((x, |c.enc(x)|)) {
      SectionReadsBack(x, rest);
    }
    forall s: seq<Byte>, t: seq<Byte> | c.dec(s).Some? ensures c.dec(s + t) == c.dec(s) {
      SectionParts(s, t);
    }
    forall s: seq<Byte> | c.dec(s).Some?
      ensures c.least <= c.dec(s).value.1 <= |s| && c.fits(c.dec(s).value.0) && c.enc(c.dec(s).value.0) == s[..c.dec(s).value.1]
    {
      SectionParts(s, []);
    }
  }

  lemma SectionReadsBack(x: MsgCallArgs, rest: seq<Byte>)
    requires SectionFits(x)
    ensures SectionDec(SectionEnc(x) + rest) == Some((x, |SectionEnc(x)|))
  {
    hide PeekI32, CountedDec, LittleEndian;
    if x.registerOffset < 0 {
      PeekWritten(x.registerOffset, rest);
    } else {
      CountedLawful();
      ReadsBack(Counted(), x.args, rest);
      CountedPeeks(Counted().enc(x.args) + rest);
    }
  }

  lemma SectionParts(s: seq<Byte>, t: seq<Byte>)
    requires SectionDec(s).Some?
    ensures SectionDec(s + t) == SectionDec(s) && 4 <= SectionDec(s).value.1 <= |s| && SectionFits(SectionDec(s).value.0)
    ensures SectionEnc(SectionDec(s).value.0) == s[..SectionDec(s).value.1]
  {
    hide CountedDec, LittleEndian;
    PeekExtends(s, t);
    if PeekI32(s).value >= 0 {
      CountedLawful();
      TakesOnlyItsBytes(Counted(), s, t);
    }
  }

  // ---- arguments or sections ----------------------------------------------------------------

  datatype CallTail = Plain(args: seq<Byte>) | Sectioned(sections: seq<MsgCallArgs>)

  function TailEnc(x: CallTail): seq<Byte> {
    match x
    case Plain(args) => Counted().enc(args)
    case Sectioned(sections) => LittleEndian(NegatedCount(|sections|), 4) + EncAll(SectionCodec(), sections)
  }

  function NegatedCount(n: nat): nat {
    if n == 0 || n > 0x1_0000_0000 then 0 else 0x1_0000_0000 - n
  }

  function SectionsDec(s: seq<Byte>): Answer<CallTail> {
    var count := PeekI32(s);
    if count.None? || count.value >= 0 || count.value == -0x8000_0000 then None
    else
      var n: nat := -(count.value as int);
      if n > (|s| - 4) / 4 then None
      else match DecAll(SectionCodec(), n, s[4..]) { case None => None case Some((items, k)) => Some((Sectioned(items), 4 + k)) }
  }

  function TailDec(s: seq<Byte>): Answer<CallTail> {
    var len := PeekI32(s);
    if len.None? then None
    else if len.value >= 0 then
      match CountedDec(s) { case None => None case Some((args, n)) => Some((Plain(args), n)) }
    else SectionsDec(s)
  }

  predicate TailFits(x: CallTail) {
    match x
    case Plain(args) => |args| < 0x8000_0000
    case Sectioned(sections) => 0 < |sections| < 0x8000_0000 && forall i :: 0 <= i < |sections| ==> SectionFits(sections[i])
  }

  function TailCodec(): Codec<CallTail> {
    Codec((x: CallTail) => TailEnc(x), (s: seq<Byte>) => TailDec(s), (x: CallTail) => TailFits(x), 4)
  }

  lemma SectionsDecIs(s: seq<Byte>, items: seq<MsgCallArgs>, k: nat)
    requires 0 < |items| < 0x8000_0000 && 4 + 4 * |items| <= |s|
    requires PeekI32(s) == Some(-|items|) && DecAll(SectionCodec(), |items|, s[4..]) == Some((items, k))
    ensures SectionsDec(s) == Some((Sectioned(items), 4 + k))
  {
    hide PeekI32, DecAll;
  }

  lemma SectionsBody(sections: seq<MsgCallArgs>, rest: seq<Byte>)
    requires TailFits(Sectioned(sections))
    ensures DecAll(SectionCodec(), |sections|, EncAll(SectionCodec(), sections) + rest) == Some((sections, |EncAll(SectionCodec(), sections)|))
    ensures |EncAll(SectionCodec(), sections)| >= 4 * |sections|
  {
    hide DecAll, EncAll, Lawful, Faithful;
    SectionLawful();
    LawfulIsFaithful(SectionCodec());
    AllReadBack(SectionCodec(), sections, rest);
  }

  lemma SectionsReadBack(sections: seq<MsgCallArgs>, rest: seq<Byte>)
    requires TailFits(Sectioned(sections))
    ensures SectionsDec(TailEnc(Sectioned(sections)) + rest) == Some((Sectioned(sections), |TailEnc(Sectioned(sections))|))
    ensures PeekI32(TailEnc(Sectioned(sections)) + rest) == Some(-|sections|)
  {
    hide PeekI32, DecAll, EncAll, LittleEndian, SectionsDec, SectionCodec;
    var n, body := |sections|, EncAll(SectionCodec(), sections);
    var word := LittleEndian(NegatedCount(n), 4);
    SectionsBody(sections, rest);
    PeekWritten(-n, body + rest);
    var s := word + (body + rest);
    assert word + body + rest == s && s[4..] == body + rest;
    SectionsDecIs(s, sections, |body|);
  }

  lemma SectionsParts(s: seq<Byte>, t: seq<Byte>)
    requires SectionsDec(s).Some?
    ensures SectionsDec(s + t) == SectionsDec(s) && 4 <= SectionsDec(s).value.1 <= |s|
    ensures SectionsDec(s).value.0.Sectioned? && TailFits(SectionsDec(s).value.0)
    ensures TailEnc(SectionsDec(s).value.0) == s[..SectionsDec(s).value.1]
  {
    hide PeekI32, DecAll, EncAll, LittleEndian, Lawful, Faithful, Canonical, Product;
    PeekExtends(s, t);
    var n: nat := -(PeekI32(s).value as int);
    SectionLawful();
    LawfulIsFaithful(SectionCodec());
    assert (s + t)[4..] == s[4..] + t;
    AllExtend(SectionCodec(), n, s[4..], t);
    AllBounded(SectionCodec(), n, s[4..]);
    ElementsFit(SectionCodec(), n, s[4..]);
    AllCanonical(SectionCodec(), n, s[4..]);
    var (items, k) := DecAll(SectionCodec(), n, s[4..]).value;
    assert s[..4] + s[4..][..k] == s[..4 + k];
    assert NegatedCount(n) == FromI32(PeekI32(s).value);
    assert forall i :: 0 <= i < n ==> SectionCodec().fits(items[i]) ==> SectionFits(items[i]);
  }

  lemma TailLawful()
    ensures Lawful(TailCodec()) && Canonical(TailCodec())
  {
    hide PeekI32, CountedDec, Counted, SectionsDec, TailEnc, LittleEndian, TailFits;
    var c := TailCodec();
    forall x: CallTail, rest: seq<Byte> | c.fits(x) ensures c.dec(c.enc(x) + rest) == Some((x, |c.enc(x)|)) {
      TailReadsBack(x, rest);
    }
    forall s: seq<Byte>, t: seq<Byte> | c.dec(s).Some? ensures c.dec(s + t) == c.dec(s) {
      TailParts(s, t);
    }
    forall s: seq<Byte> | c.dec(s).Some?
      ensures c.least <= c.dec(s).value.1 <= |s| && c.fits(c.dec(s).value.0) && c.enc(c.dec(s).value.0) == s[..c.dec(s).value.1]
    {
      TailParts(s, []);
    }
  }

  lemma TailReadsBack(x: CallTail, rest: seq<Byte>)
    requires TailFits(x)
    ensures TailDec(TailEnc(x) + rest) == Some((x, |TailEnc(x)|))
  {
    hide PeekI32, CountedDec, SectionsDec, LittleEndian;
    match x
    case Plain(args) =>
      CountedLawful();
      ReadsBack(Counted(), args, rest);
      CountedPeeks(Counted().enc(args) + rest);
    case Sectioned(sections) =>
      SectionsReadBack(sections, rest);
  }

  lemma TailParts(s: seq<Byte>, t: seq<Byte>)
    requires TailDec(s).Some?
    ensures TailDec(s + t) == TailDec(s) && 4 <= TailDec(s).value.1 <= |s| && TailFits(TailDec(s).value.0)
    ensures TailEnc(TailDec(s).value.0) == s[..TailDec(s).value.1]
  {
    hide CountedDec, SectionsDec, LittleEndian;
    PeekExtends(s, t);
    if PeekI32(s).value >= 0 {
      CountedLawful();
      TakesOnlyItsBytes(Counted(), s, t);
    } else {
      SectionsParts(s, t);
    }
  }

  // ---- the call -----------------------------------------------------------------------------

  function ToCall(p: (U32, (U32, CallTail))): TxMsgCall {
    match p.1.1
    case Plain(args) => TxMsgCall(p.0, p.1.0, args, [])
    case Sectioned(sections) => TxMsgCall(p.0, p.1.0, [], sections)
  }

  /** What the writer puts after the two ids: the sections when there are any. */
  function OfCall(c: TxMsgCall): (U32, (U32, CallTail)) {
    (c.moduleId, (c.methodId, if c.sections == [] then Plain(c.args) else Sectioned(c.sections)))
  }

  predicate CallFits(c: TxMsgCall) {
    if c.sections == [] then |c.args| < 0x8000_0000
    else c.args == [] && |c.sections| < 0x8000_0000 && forall i :: 0 <= i < |c.sections| ==> SectionFits(c.sections[i])
  }

  function CallFields(): Codec<(U32, (U32, CallTail))> {
    Pair(U32Codec(), Pair(U32Codec(), TailCodec()))
  }

  function TxMsgCallCodec(): Codec<TxMsgCall> {
    Mapped(CallFields(), ToCall, OfCall, (c: TxMsgCall) => CallFits(c))
  }

  lemma CallFieldsLawful()
    ensures Lawful(CallFields()) && Canonical(CallFields()) && CallFields().least == 12
    ensures forall a :: CallFields().fits(a) <==> TailFits(a.1.1)
  {
    hide Lawful, Canonical, Pair, TailEnc, TailDec;
    WordShapes();
    WordsLawful();
    TailLawful();
    PairLawful(U32Codec(), TailCodec());
    PairLawful(U32Codec(), Pair(U32Codec(), TailCodec()));
    PairShape(U32Codec(), TailCodec());
    PairShape(U32Codec(), Pair(U32Codec(), TailCodec()));
  }

  lemma TxMsgCallLawful()
    ensures Lawful(TxMsgCallCodec()) && Canonical(TxMsgCallCodec()) && TxMsgCallCodec().least == 12
  {
    hide Lawful, Canonical, CallFields;
    CallFieldsLawful();
    MappedLawful(CallFields(), ToCall, OfCall, (c: TxMsgCall) => CallFits(c));
  }
}
