/** The cursor a reader advances and the buffer a writer appends to. */
module Views {
  import opened Wrappers
  import opened Words64
  import opened Codecs
  import opened WireFormat

  /** Bytes still to be read. A failed advance is sticky: nothing is read after it. */
  class ReadView {
    var bytes: seq<Byte>
    var fail: bool
    var nonStandard: bool
    const relaxed: bool

    constructor (bytes: seq<Byte>, relaxed: bool)
      ensures this.bytes == bytes && !fail && !nonStandard && this.relaxed == relaxed
    {
      this.bytes, fail, nonStandard, this.relaxed := bytes, false, false, relaxed;
    }

    method Advance(o: nat) returns (ok: bool)
      modifies this`bytes, this`fail
      ensures fail == (old(fail) || o > |old(bytes)|) && ok == !fail
      ensures bytes == if ok then old(bytes)[o..] else old(bytes)
    {
      fail := fail || o > |bytes|;
      if fail {
        return false;
      }
      bytes := bytes[o..];
      ok := true;
    }

    method ReadBytes(o: nat) returns (ok: bool, dst: seq<Byte>)
      modifies this`bytes, this`fail
      ensures fail == (old(fail) || o > |old(bytes)|) && ok == !fail
      ensures bytes == if ok then old(bytes)[o..] else old(bytes)
      ensures dst == if ok then old(bytes)[..o] else []
    {
      var src := bytes;
      ok := Advance(o);
      dst := if ok then src[..o] else [];
    }

    /** Back to an earlier mark; the mark keeps the bytes that were left there. */
    method Rewind(mark: seq<Byte>)
      requires |bytes| <= |mark| && mark[|mark| - |bytes|..] == bytes
      modifies this`bytes
      ensures bytes == mark
    {
      var diff := |mark| - |bytes|;
      bytes := mark[..diff] + bytes;
      assert mark[..diff] + mark[diff..] == mark;
    }

    /** Non-standard data fails a strict view and is noted by a relaxed one. */
    method OnNonStandardDataFound() returns (allowed: bool)
      modifies this`nonStandard, this`fail
      ensures nonStandard && fail == (old(fail) || !relaxed) && allowed == relaxed
    {
      nonStandard := true;
      fail := fail || !relaxed;
      allowed := relaxed;
    }
  }

  class WriteView {
    var m: seq<Byte>

    constructor ()
      ensures m == []
    {
      m := [];
    }

    method WriteByte(b: Byte)
      modifies this
      ensures m == old(m) + [b]
    {
      m := m + [b];
    }

    method WriteBytes(b: seq<Byte>)
      modifies this
      ensures m == old(m) + b
    {
      m := m + b;
    }
  }

  /** A reader's outcome is what the codec answers on the bytes that were left: the value, with the
      cursor behind exactly its image, or a refusal. */
  ghost predicate Reads<T>(c: Codec<T>, before: seq<Byte>, after: seq<Byte>, fail: bool, out: Option<T>) {
    match c.dec(before)
    case None => out.None?
    case Some((v, n)) => n <= |before| && out == Some(v) && after == before[n..] && !fail
  }

  /** Two readers in a row read a pair: the second runs when the first succeeded. */
  lemma PairReads<A(!new), B(!new)>(a: Codec<A>, b: Codec<B>, s0: seq<Byte>, s1: seq<Byte>, s2: seq<Byte>, f1: bool, f2: bool,
                                    x: Option<A>, y: Option<B>)
    requires Reads(a, s0, s1, f1, x) && (x.Some? ==> Reads(b, s1, s2, f2, y)) && (x.None? ==> y.None?)
    ensures Reads(Pair(a, b), s0, s2, f2, if y.Some? then Some((x.value, y.value)) else None)
  {
  }

  lemma StructReads<A(!new), B(!new)>(c: Codec<A>, to: A -> B, back: B -> A, s0: seq<Byte>, s1: seq<Byte>, fail: bool, x: Option<A>)
    requires Reads(c, s0, s1, fail, x)
    ensures Reads(Struct(c, to, back), s0, s1, fail, if x.Some? then Some(to(x.value)) else None)
  {
  }

  lemma MappedReads<A(!new), B(!new)>(c: Codec<A>, to: A -> B, back: B -> A, fits: B -> bool,
                                      s0: seq<Byte>, s1: seq<Byte>, fail: bool, x: Option<A>)
    requires Reads(c, s0, s1, fail, x)
    ensures Reads(Mapped(c, to, back, fits), s0, s1, fail, if x.Some? then Some(to(x.value)) else None)
  {
  }

  lemma VariantReads<A(!new), B(!new)>(c: Codec<A>, to: A -> B, back: B -> Option<A>, s0: seq<Byte>, s1: seq<Byte>, fail: bool, x: Option<A>)
    requires Reads(c, s0, s1, fail, x)
    ensures Reads(Variant(c, to, back), s0, s1, fail, if x.Some? then Some(to(x.value)) else None)
  {
  }

  lemma ChainReads<A(!new), B(!new)>(c: Codec<A>, next: A -> Codec<B>, extra: nat, s0: seq<Byte>, s1: seq<Byte>, s2: seq<Byte>,
                                     f1: bool, f2: bool, x: Option<A>, y: Option<B>)
    requires Reads(c, s0, s1, f1, x) && (x.Some? ==> Reads(next(x.value), s1, s2, f2, y)) && (x.None? ==> y.None?)
    ensures Reads(Chain(c, next, extra), s0, s2, f2, if y.Some? then Some((x.value, y.value)) else None)
  {
  }

  // ---- fields -------------------------------------------------------------------------------

  method ReadU8(r: ReadView) returns (out: Option<U8>)
    requires !r.fail
    modifies r`bytes, r`fail
    ensures Reads(U8Codec(), old(r.bytes), r.bytes, r.fail, out)
    ensures out.Some? ==> !r.fail
  {
    var ok, b := r.ReadBytes(1);
    out := if ok then Some(ToU8(b)) else None;
  }

  method ReadU32(r: ReadView) returns (out: Option<U32>)
    requires !r.fail
    modifies r`bytes, r`fail
    ensures Reads(U32Codec(), old(r.bytes), r.bytes, r.fail, out)
    ensures out.Some? ==> !r.fail
  {
    var ok, b := r.ReadBytes(4);
    out := if ok then Some(ToU32(b)) else None;
  }

  method ReadU64(r: ReadView) returns (out: Option<U64>)
    requires !r.fail
    modifies r`bytes, r`fail
    ensures Reads(U64Codec(), old(r.bytes), r.bytes, r.fail, out)
    ensures out.Some? ==> !r.fail
  {
    var ok, b := r.ReadBytes(8);
    out := if ok then Some(ToU64(b)) else None;
  }

  method ReadI32(r: ReadView) returns (out: Option<I32>)
    requires !r.fail
    modifies r`bytes, r`fail
    ensures Reads(I32Codec(), old(r.bytes), r.bytes, r.fail, out)
    ensures out.Some? ==> !r.fail
  {
    var ok, b := r.ReadBytes(4);
    out := if ok then Some(AsI32(ToU32(b))) else None;
  }

  method ReadI64(r: ReadView) returns (out: Option<I64>)
    requires !r.fail
    modifies r`bytes, r`fail
    ensures Reads(I64Codec(), old(r.bytes), r.bytes, r.fail, out)
    ensures out.Some? ==> !r.fail
  {
    var ok, b := r.ReadBytes(8);
    out := if ok then Some(AsI64(ToU64(b))) else None;
  }

  method ReadBytes32(r: ReadView) returns (out: Option<Bytes32>)
    requires !r.fail
    modifies r`bytes, r`fail
    ensures Reads(Bytes32Codec(), old(r.bytes), r.bytes, r.fail, out)
    ensures out.Some? ==> !r.fail
  {
    var ok, b := r.ReadBytes(32);
    out := if ok then Some(ToBytes32(b)) else None;
  }

  method ReadBytes64(r: ReadView) returns (out: Option<Bytes64>)
    requires !r.fail
    modifies r`bytes, r`fail
    ensures Reads(Bytes64Codec(), old(r.bytes), r.bytes, r.fail, out)
    ensures out.Some? ==> !r.fail
  {
    var ok, b := r.ReadBytes(64);
    out := if ok then Some(ToBytes64(b)) else None;
  }

  method ReadSmallString(r: ReadView) returns (out: Option<SmallString>)
    requires !r.fail
    modifies r`bytes, r`fail
    ensures Reads(SmallStringCodec(), old(r.bytes), r.bytes, r.fail, out)
    ensures out.Some? ==> !r.fail
  {
    hide Number;
    var len := ReadU8(r);
    if len.None? {
      return None;
    }
    var ok, b := r.ReadBytes(len.value);
    out := if ok then Some(ToSmallString(b)) else None;
  }

  method ReadRaw(size: nat, r: ReadView) returns (out: Option<seq<Byte>>)
    requires !r.fail
    modifies r`bytes, r`fail
    ensures Reads(Raw(size), old(r.bytes), r.bytes, r.fail, out)
    ensures out.Some? ==> !r.fail
  {
    var ok, b := r.ReadBytes(size);
    out := if ok then Some(b) else None;
  }

  method ReadWhole(size: nat, r: ReadView) returns (out: Option<nat>)
    requires !r.fail
    modifies r`bytes, r`fail
    ensures Reads(WholeCodec(size), old(r.bytes), r.bytes, r.fail, out)
    ensures out.Some? ==> !r.fail
  {
    hide Number, Reads;
    ghost var start := r.bytes;
    var b := ReadRaw(size, r);
    MappedReads(Raw(size), (s: seq<Byte>) => Number(s), (v: nat) => LittleEndian(v, size), (v: nat) => v < Positional.Pow(256, size),
                start, r.bytes, r.fail, b);
    out := if b.None? then None else Some(Number(b.value));
  }

  // ---- counted bytes and arrays -------------------------------------------------------------

  method ReadArrayLength(r: ReadView, elementSize: nat) returns (out: Option<nat>)
    requires !r.fail
    modifies r`bytes, r`fail
    ensures out.Some? <==> LengthDec(old(r.bytes), elementSize).Some?
    ensures out.Some? ==> out.value == LengthDec(old(r.bytes), elementSize).value.0 && |old(r.bytes)| >= 4
    ensures out.Some? ==> r.bytes == old(r.bytes)[4..] && !r.fail
  {
    var ok, b := r.ReadBytes(4);
    if !ok {
      return None;
    }
    var len: int := AsI32(ToU32(b));
    hide Number;
    BytePowers();
    NumberWritten(b);
    if len < 0 || elementSize == 0 {
      return None;
    }
    if len > |r.bytes| / elementSize {
      return None;
    }
    out := Some(len);
  }

  method ReadCounted(r: ReadView) returns (out: Option<seq<Byte>>)
    requires !r.fail
    modifies r`bytes, r`fail
    ensures Reads(Counted(), old(r.bytes), r.bytes, r.fail, out)
    ensures out.Some? ==> !r.fail
  {
    hide LengthDec;
    var len := ReadArrayLength(r, 1);
    if len.None? {
      return None;
    }
    var ok, b := r.ReadBytes(len.value);
    out := if ok then Some(b) else None;
    ghost var start := old(r.bytes);
    assert 4 + len.value <= |start| ==> start[4..][..len.value] == start[4..4 + len.value] && start[4..][len.value..] == start[4 + len.value..];
  }

  lemma DecNone<T>(c: Codec<T>, s: seq<Byte>)
    ensures DecAll(c, 0, s) == Some(([], 0))
  {
  }

  lemma {:induction false} NeverRecovers<T>(c: Codec<T>, i: nat, n: nat, s: seq<Byte>)
    requires i <= n && DecAll(c, i, s).None?
    ensures DecAll(c, n, s).None?
  {
    if i < n {
      NeverRecovers(c, i, n - 1, s);
      DecNext(c, n - 1, s);
    }
  }

  // ---- elements one after another -----------------------------------------------------------

  lemma NotFailed<T>(c: Codec<T>, s0: seq<Byte>, s1: seq<Byte>, fail: bool, out: Option<T>)
    requires Reads(c, s0, s1, fail, out)
    ensures out.Some? ==> !fail && |s1| <= |s0|
    ensures out.Some? ==> c.dec(s0).Some? && c.dec(s0).value.0 == out.value && c.dec(s0).value.1 <= |s0| && s1 == s0[c.dec(s0).value.1..]
    ensures out.None? ==> c.dec(s0).None?
  {
  }

  /** The first i elements of body are read, and the cursor stands behind them. */
  ghost predicate ReadSoFar<T>(c: Codec<T>, body: seq<Byte>, i: nat, items: seq<T>, bytes: seq<Byte>) {
    match DecAll(c, i, body)
    case None => false
    case Some((done, k)) => k <= |body| && items == done && |items| == i && bytes == body[k..]
  }

  lemma NoneRead<T>(c: Codec<T>, body: seq<Byte>)
    ensures ReadSoFar(c, body, 0, [], body)
  {
  }

  lemma OneMore<T>(c: Codec<T>, body: seq<Byte>, i: nat, items: seq<T>, s0: seq<Byte>, s1: seq<Byte>, fail: bool, out: Option<T>)
    requires ReadSoFar(c, body, i, items, s0) && Reads(c, s0, s1, fail, out)
    ensures out.Some? ==> !fail && |s1| <= |s0| && ReadSoFar(c, body, i + 1, items + [out.value], s1)
    ensures out.None? ==> DecAll(c, i + 1, body).None?
  {
    hide DecAll;
    DecNext(c, i, body);
    var k := DecAll(c, i, body).value.1;
    if out.Some? {
      var m := c.dec(s0).value.1;
      assert body[k..][m..] == body[k + m..];
    }
  }

  lemma AllRead<T>(c: Codec<T>, elementSize: nat, s: seq<Byte>, n: nat, items: seq<T>, bytes: seq<Byte>)
    requires |s| >= 4 && LengthDec(s, elementSize) == Some((n, 4)) && ReadSoFar(c, s[4..], n, items, bytes)
    ensures Reads(ArrayOf(c, elementSize), s, bytes, false, Some(items))
  {
    hide DecAll, LengthDec;
    var k := DecAll(c, n, s[4..]).value.1;
    assert s[4..][k..] == s[4 + k..];
  }

  lemma SomeRefused<T>(c: Codec<T>, elementSize: nat, s: seq<Byte>, i: nat, n: nat, bytes: seq<Byte>, fail: bool)
    requires |s| >= 4 && LengthDec(s, elementSize) == Some((n, 4)) && i <= n && DecAll(c, i, s[4..]).None?
    ensures Reads(ArrayOf(c, elementSize), s, bytes, fail, None)
  {
    hide DecAll, LengthDec;
    NeverRecovers(c, i, n, s[4..]);
  }

  lemma LengthIsFour(s: seq<Byte>, elementSize: nat)
    ensures LengthDec(s, elementSize).Some? ==> LengthDec(s, elementSize).value.1 == 4
  {
  }

  lemma NoLength<T>(c: Codec<T>, elementSize: nat, s: seq<Byte>, bytes: seq<Byte>, fail: bool)
    requires LengthDec(s, elementSize).None?
    ensures Reads(ArrayOf(c, elementSize), s, bytes, fail, None)
  {
  }

  // ---- writers ------------------------------------------------------------------------------

  /** The memory image of a fixed-width word, written by its address. */
  method WriteWord(v: nat, size: nat, w: WriteView)
    modifies w
    ensures w.m == old(w.m) + LittleEndian(v, size)
  {
    w.WriteBytes(LittleEndian(v, size));
  }

  method WriteSmallString(s: SmallString, w: WriteView)
    modifies w
    ensures w.m == old(w.m) + SmallStringCodec().enc(s)
  {
    hide LittleEndian, SmallStringCodec;
    w.WriteByte(|s|);
    if |s| != 0 {
      w.WriteBytes(s);
    }
    OneByte(|s|);
    SmallStringImage(s);
  }

  lemma OneByte(v: Byte)
    ensures LittleEndian(v, 1) == [v]
  {
    assert LittleEndian(v / 256, 0) == [];
  }

  lemma SmallStringImage(s: SmallString)
    ensures SmallStringCodec().enc(s) == LittleEndian(|s|, 1) + s
  {
  }

  method WriteCounted(v: seq<Byte>, w: WriteView)
    modifies w
    ensures w.m == old(w.m) + Counted().enc(v)
  {
    WriteWord(|v|, 4, w);
    w.WriteBytes(v);
  }

  lemma EncNone<T>(c: Codec<T>, items: seq<T>)
    ensures EncAll(c, items[..0]) == []
  {
  }

  lemma EncUpTo<T>(c: Codec<T>, items: seq<T>, i: nat)
    requires i < |items|
    ensures EncAll(c, items[..i + 1]) == EncAll(c, items[..i]) + c.enc(items[i])
  {
    assert items[..i + 1][..i] == items[..i];
  }

  method WriteBytes32(v: Bytes32, w: WriteView)
    modifies w
    ensures w.m == old(w.m) + Bytes32Codec().enc(v)
  {
    w.WriteBytes(v);
  }

  method WriteBytes64(v: Bytes64, w: WriteView)
    modifies w
    ensures w.m == old(w.m) + Bytes64Codec().enc(v)
  {
    w.WriteBytes(v);
  }

  method WriteU8(v: U8, w: WriteView)
    modifies w
    ensures w.m == old(w.m) + U8Codec().enc(v)
  {
    hide LittleEndian;
    OneByte(v);
    w.WriteByte(v);
    U8Image(v);
  }

  lemma U8Image(v: U8)
    ensures U8Codec().enc(v) == LittleEndian(v, 1)
  {
  }

  method WriteU32(v: U32, w: WriteView)
    modifies w
    ensures w.m == old(w.m) + U32Codec().enc(v)
  {
    hide LittleEndian;
    WriteWord(v, 4, w);
  }

  method WriteU64(v: U64, w: WriteView)
    modifies w
    ensures w.m == old(w.m) + U64Codec().enc(v)
  {
    hide LittleEndian;
    WriteWord(v, 8, w);
  }

  method WriteI64(v: I64, w: WriteView)
    modifies w
    ensures w.m == old(w.m) + I64Codec().enc(v)
  {
    hide LittleEndian;
    WriteWord(FromI64(v), 8, w);
  }

  /** Appending two images one after another. */
  lemma Appended(m: seq<Byte>, a: seq<Byte>, b: seq<Byte>)
    ensures m + (a + b) == m + a + b
  {
  }

  lemma PairImage<A, B>(a: Codec<A>, b: Codec<B>, x: A, y: B, m: seq<Byte>)
    ensures m + Pair(a, b).enc((x, y)) == m + a.enc(x) + b.enc(y)
  {
    Appended(m, a.enc(x), b.enc(y));
  }

  lemma StructImage<A, B>(c: Codec<A>, to: A -> B, back: B -> A, v: B)
    ensures Struct(c, to, back).enc(v) == c.enc(back(v))
  {
  }
}
