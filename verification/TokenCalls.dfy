/** Arguments of token-module calls, read back out of a call. Each reader keeps going on a view whose
    failure flag is sticky and asks the flag once, at the end. */
module TokenCalls {
  import opened Wrappers
  import opened Words64
  import opened Codecs
  import opened WireFormat
  import opened IntX
  import opened Messages
  import opened MessageCodecs
  import opened Views
  import opened PayloadViews

  // ---- sticky field reads -------------------------------------------------------------------

  /** The next n bytes, or nothing on a view that failed or fails now. */
  method TakeBytes(n: nat, r: ReadView) returns (b: seq<Byte>)
    modifies r`bytes, r`fail
    ensures r.fail == (old(r.fail) || n > |old(r.bytes)|)
    ensures !r.fail ==> b == old(r.bytes)[..n] && r.bytes == old(r.bytes)[n..]
    ensures r.fail ==> b == [] && r.bytes == old(r.bytes)
  {
    var ok;
    ok, b := r.ReadBytes(n);
  }

  /** A declared element count; without exceptions an unusable count reads as zero. */
  method ReadLengthFor(r: ReadView, elementSize: nat) returns (n: U32)
    requires elementSize > 0
    modifies r`bytes, r`fail
    ensures r.fail == (old(r.fail) || 4 > |old(r.bytes)|)
    ensures !r.fail ==> n == DeclaredCount(old(r.bytes), elementSize) && r.bytes == old(r.bytes)[4..]
    ensures r.fail ==> n == 0 && r.bytes == old(r.bytes)
  {
    hide Number;
    var b := TakeBytes(4, r);
    if r.fail {
      return 0;
    }
    var len: int := AsI32(ToU32(b));
    if len < 0 {
      return 0;
    }
    if len > |r.bytes| / elementSize {
      return 0;
    }
    n := len;
  }

  function DeclaredCount(s: seq<Byte>, elementSize: nat): U32
    requires |s| >= 4 && elementSize > 0
  {
    var len: int := AsI32(ToU32(s[..4]));
    if 0 <= len <= (|s| - 4) / elementSize then len else 0
  }

  // ---- what the arguments say ---------------------------------------------------------------

  /** to, from, tokenId, amount. */
  function TransferFungibleArgs(args: seq<Byte>): Option<(Bytes32, U64)> {
    if |args| >= 72 then Some((args[..32], ToU64(args[64..72]))) else None
  }

  /** to, from, tokenId, instanceIds. */
  function TransferNonFungibleArgs(args: seq<Byte>): Option<(Bytes32, U64, U32)> {
    if |args| >= 76 then Some((args[..32], ToU64(args[64..72]), DeclaredCount(args[72..], 8))) else None
  }

  /** tokenId, to, amount. */
  function MintFungibleArgs(args: seq<Byte>): Option<(Bytes32, U64)> {
    if |args| >= 40 then Some((args[8..40], ToU64(args[..8]))) else None
  }

  /** tokenId, from, amount. */
  function BurnFungibleArgs(args: seq<Byte>): Option<U64> {
    if |args| >= 8 then Some(ToU64(args[..8])) else None
  }

  function IdsAt(s: seq<Byte>, n: nat): (ids: seq<U64>)
    requires 8 * n <= |s|
    ensures |ids| == n
  {
    if n == 0 then [] else IdsAt(s, n - 1) + [ToU64(s[8 * (n - 1)..8 * n])]
  }

  lemma CountFits(s: seq<Byte>)
    requires |s| >= 4
    ensures 8 * (DeclaredCount(s, 8) as nat) <= |s| - 4
  {
  }

  /** tokenId, address, instanceIds. */
  function BurnNonFungibleArgs(args: seq<Byte>): Option<(U64, seq<U64>)> {
    if |args| >= 44 then
      CountFits(args[40..]);
      Some((ToU64(args[..8]), IdsAt(args[44..], DeclaredCount(args[40..], 8))))
    else None
  }

  // ---- the readers --------------------------------------------------------------------------

  method ReadTransferFungible(args: seq<Byte>) returns (out: Option<(Bytes32, U64)>)
    ensures out == TransferFungibleArgs(args)
  {
    hide ToU64;
    var r := new ReadView(args, false);
    var to := TakeBytes(32, r);
    var holder := TakeBytes(32, r);
    var tokenId := TakeBytes(8, r);
    assert !r.fail ==> to == args[..32] && tokenId == args[64..72];
    out := if r.fail then None else Some((to, ToU64(tokenId)));
  }

  method ReadTransferNonFungible(args: seq<Byte>) returns (out: Option<(Bytes32, U64, U32)>)
    ensures out == TransferNonFungibleArgs(args)
  {
    hide ToU64, DeclaredCount;
    var r := new ReadView(args, false);
    var to := TakeBytes(32, r);
    var holder := TakeBytes(32, r);
    var tokenId := TakeBytes(8, r);
    assert !r.fail ==> to == args[..32] && tokenId == args[64..72] && r.bytes == args[72..];
    var count := ReadLengthFor(r, 8);
    out := if r.fail then None else Some((to, ToU64(tokenId), count));
  }

  method ReadMintFungible(args: seq<Byte>) returns (out: Option<(Bytes32, U64)>)
    ensures out == MintFungibleArgs(args)
  {
    hide ToU64;
    var r := new ReadView(args, false);
    var tokenId := TakeBytes(8, r);
    var to := TakeBytes(32, r);
    assert !r.fail ==> to == args[8..40];
    out := if r.fail then None else Some((to, ToU64(tokenId)));
  }

  method ReadBurnFungible(args: seq<Byte>) returns (out: Option<U64>)
    ensures out == BurnFungibleArgs(args)
  {
    var r := new ReadView(args, false);
    var tokenId := TakeBytes(8, r);
    out := if r.fail then None else Some(ToU64(tokenId));
  }

  method ReadBurnNonFungible(args: seq<Byte>) returns (out: Option<(U64, seq<U64>)>)
    ensures out == BurnNonFungibleArgs(args)
  {
    hide ToU64, DeclaredCount;
    var r := new ReadView(args, false);
    var tokenId := TakeBytes(8, r);
    var holder := TakeBytes(32, r);
    assert !r.fail ==> tokenId == args[..8] && r.bytes == args[40..];
    var count := ReadLengthFor(r, 8);
    assert !r.fail ==> r.bytes == args[44..];
    if |args| >= 44 { CountFits(args[40..]); }
    ghost var body := r.bytes;
    var ids: seq<U64> := [];
    var i: nat := 0;
    while i != count && !r.fail
      invariant i <= count
      invariant !r.fail ==> 8 * (count as nat) <= |body| && ids == IdsAt(body, i) && r.bytes == body[8 * i..]
      invariant r.fail <==> |args| < 44
      decreases (count as nat) - i
    {
      var id := TakeBytes(8, r);
      assert id == body[8 * i..8 * (i + 1)];
      ids := ids + [ToU64(id)];
      i := i + 1;
    }
    out := if r.fail then None else Some((ToU64(tokenId), ids));
  }

  // ---- the Phantasma mint -------------------------------------------------------------------

  /** One minted instance: its series, its public ROM and its RAM. */
  type MintEntry = (int, (seq<Byte>, seq<Byte>))

  function EntryCodec(): Codec<MintEntry> {
    Pair(IntXCodec(), Pair(Counted(), Counted()))
  }

  lemma EntryLawful()
    ensures Lawful(EntryCodec()) && EntryCodec().least == 17
  {
    hide Lawful, IntXCodec, Counted;
    FieldsLawful();
    PairLawful(Counted(), Counted());
    PairLawful(IntXCodec(), Pair(Counted(), Counted()));
  }

  datatype MintFacts = MintFacts(tokenId: U64, to: Bytes32, roms: seq<U32>, rams: seq<U32>, series: set<int>)

  function Size(b: seq<Byte>): U32 {
    |b| % 0x1_0000_0000
  }

  function RomSizes(entries: seq<MintEntry>): (r: seq<U32>)
    ensures |r| == |entries|
  {
    seq(|entries|, i requires 0 <= i < |entries| => Size(entries[i].1.0))
  }

  function RamSizes(entries: seq<MintEntry>): (r: seq<U32>)
    ensures |r| == |entries|
  {
    seq(|entries|, i requires 0 <= i < |entries| => Size(entries[i].1.1))
  }

  function SeriesOf(entries: seq<MintEntry>): set<int> {
    set i | 0 <= i < |entries| :: entries[i].0
  }

  /** The facts of a mint: one size per instance, and the distinct series it writes into. */
  function PhantasmaMintFacts(args: seq<Byte>): Option<MintFacts> {
    if |args| < 44 then None
    else
      var count := ToU32(args[40..44]);
      if count > |args| - 44 then None
      else
        match DecAll(EntryCodec(), count, args[44..])
        case None => None
        case Some((entries, _)) =>
          Some(MintFacts(ToU64(args[..8]), args[8..40], RomSizes(entries), RamSizes(entries), SeriesOf(entries)))
  }

  /** There are at least one and at most as many distinct series as instances, so a planned mint never
      has its series count refused. */
  lemma SeriesCount(entries: seq<MintEntry>)
    ensures |SeriesOf(entries)| <= |entries| && (entries != [] ==> |SeriesOf(entries)| >= 1)
    decreases |entries|
  {
    if entries != [] {
      var n := |entries| - 1;
      SeriesCount(entries[..n]);
      SeriesNext(entries, n);
    }
  }

  lemma SeriesNext(entries: seq<MintEntry>, n: nat)
    requires n < |entries|
    ensures SeriesOf(entries[..n + 1]) == SeriesOf(entries[..n]) + {entries[n].0}
    ensures n + 1 == |entries| ==> SeriesOf(entries) == SeriesOf(entries[..n]) + {entries[n].0}
  {
    assert forall i :: 0 <= i < n ==> entries[..n + 1][i] == entries[..n][i];
    forall x ensures x in SeriesOf(entries[..n + 1]) <==> x in SeriesOf(entries[..n]) + {entries[n].0} {
      if x in SeriesOf(entries[..n]) {
        var i :| 0 <= i < n && entries[..n][i].0 == x;
        assert entries[..n + 1][i].0 == x;
      }
      if x == entries[n].0 {
        assert entries[..n + 1][n].0 == x;
      }
    }
    if n + 1 == |entries| {
      assert entries[..n + 1] == entries;
    }
  }

  /** Reads the mint's arguments. */
  method ReadPhantasmaMintFacts(args: seq<Byte>) returns (out: Option<MintFacts>, distinct: nat)
    ensures out == PhantasmaMintFacts(args)
    ensures out.Some? ==> distinct == (if out.value.series == {} then 1 else |out.value.series|)
  {
    hide ToU64, ToU32, DecAll, EntryCodec, RomSizes, RamSizes;
    distinct := 1;
    var r := new ReadView(args, false);
    var tokenId := TakeBytes(8, r);
    var to := TakeBytes(32, r);
    if r.fail {
      return None, 1;
    }
    assert tokenId == args[..8] && to == args[8..40] && r.bytes == args[40..];
    var countBytes := TakeBytes(4, r);
    assert !r.fail ==> countBytes == args[40..44] && r.bytes == args[44..];
    if r.fail || ToU32(countBytes) > |r.bytes| {
      return None, 1;
    }
    var entries, seriesIds := ReadEntries(ToU32(countBytes), r);
    if entries.None? {
      return None, 1;
    }
    distinct := if seriesIds == [] then 1 else |seriesIds|;
    out := Some(MintFacts(ToU64(tokenId), to, entries.value.0, entries.value.1, SetOf(seriesIds)));
  }

  /** The sizes of every instance, and the series in the order they are first met: each id is compared
      with the ones already seen. */
  method ReadEntries(count: nat, r: ReadView) returns (out: Option<(seq<U32>, seq<U32>)>, seriesIds: seq<int>)
    requires !r.fail && !r.relaxed
    modifies r`bytes, r`fail, r`nonStandard
    ensures match DecAll(EntryCodec(), count, old(r.bytes)) {
      case None => out.None?
      case Some((entries, _)) =>
        out == Some((RomSizes(entries), RamSizes(entries))) && SetOf(seriesIds) == SeriesOf(entries) && |seriesIds| == |SeriesOf(entries)|
    }
  {
    hide DecAll, EntryCodec, RomSizes, RamSizes, SeriesOf;
    ghost var body := r.bytes;
    seriesIds := [];
    var roms: seq<U32> := [];
    var rams: seq<U32> := [];
    ghost var entries: seq<MintEntry> := [];
    var i: nat := 0;
    DecNone(EntryCodec(), body);
    NoSizes();
    while i != count
      invariant i <= count && !r.fail
      invariant DecAll(EntryCodec(), i, body).Some? && DecAll(EntryCodec(), i, body).value.0 == entries && |entries| == i
      invariant DecAll(EntryCodec(), i, body).value.1 <= |body| && r.bytes == body[DecAll(EntryCodec(), i, body).value.1..]
      invariant roms == RomSizes(entries) && rams == RamSizes(entries)
      invariant SetOf(seriesIds) == SeriesOf(entries) && |seriesIds| == |SeriesOf(entries)|
    {
      DecNext(EntryCodec(), i, body);
      ghost var before := r.bytes;
      var entry := ReadEntry(r);
      EntryOutcome(before, r.bytes, r.fail, entry);
      if entry.None? {
        NeverRecovers(EntryCodec(), i + 1, count, body);
        return None, [];
      }
      var (seriesId, (rom, ram)) := entry.value;
      roms := roms + [Size(rom)];
      rams := rams + [Size(ram)];
      NextSizes(entries, entry.value);
      NextSeries(entries, entry.value);
      var seen := Seen(seriesIds, seriesId);
      if !seen {
        seriesIds := seriesIds + [seriesId];
      }
      entries := entries + [entry.value];
      i := i + 1;
    }
    out := Some((roms, rams));
  }

  lemma NextSeries(entries: seq<MintEntry>, e: MintEntry)
    ensures SeriesOf(entries + [e]) == SeriesOf(entries) + {e.0}
    ensures |SeriesOf(entries + [e])| == |SeriesOf(entries)| + (if e.0 in SeriesOf(entries) then 0 else 1)
  {
    hide SeriesOf;
    SeriesNext(entries + [e], |entries|);
    assert (entries + [e])[..|entries|] == entries;
  }

  function SetOf(s: seq<int>): set<int> {
    set x | x in s
  }

  lemma NoSizes()
    ensures RomSizes([]) == [] && RamSizes([]) == [] && SeriesOf([]) == {}
  {
  }

  lemma NextSizes(entries: seq<MintEntry>, e: MintEntry)
    ensures RomSizes(entries + [e]) == RomSizes(entries) + [Size(e.1.0)]
    ensures RamSizes(entries + [e]) == RamSizes(entries) + [Size(e.1.1)]
  {
  }

  method Seen(seriesIds: seq<int>, seriesId: int) returns (seen: bool)
    ensures seen <==> seriesId in seriesIds
  {
    seen := false;
    var s: nat := 0;
    while s != |seriesIds| && !seen
      invariant s <= |seriesIds| && (seen <==> seriesId in seriesIds[..s])
      decreases |seriesIds| - s
    {
      seen := seriesIds[s] == seriesId;
      assert seriesIds[..s + 1] == seriesIds[..s] + [seriesIds[s]];
      s := s + 1;
    }
    assert seen || seriesIds[..s] == seriesIds;
  }

  method ReadEntry(r: ReadView) returns (out: Option<MintEntry>)
    requires !r.fail && !r.relaxed
    modifies r`bytes, r`fail, r`nonStandard
    ensures Reads(EntryCodec(), old(r.bytes), r.bytes, r.fail, out)
    ensures out.Some? ==> !r.fail
  {
    hide IntXCodec, Counted, Pair, Reads;
    ghost var s0 := r.bytes;
    var seriesId := ReadAmount(r);
    ghost var s1, f1 := r.bytes, r.fail;
    var rom: Option<seq<Byte>> := None;
    if seriesId.Some? { rom := ReadCounted(r); }
    ghost var s2, f2 := r.bytes, r.fail;
    var ram: Option<seq<Byte>> := None;
    if rom.Some? { ram := ReadCounted(r); }
    if seriesId.Some? { PairReads(Counted(), Counted(), s1, s2, r.bytes, f2, r.fail, rom, ram); }
    var sizes := if ram.Some? then Some((rom.value, ram.value)) else None;
    PairReads(IntXCodec(), Pair(Counted(), Counted()), s0, s1, r.bytes, f1, r.fail, seriesId, sizes);
    out := if sizes.Some? then Some((seriesId.value, sizes.value)) else None;
  }

  lemma EntryOutcome(before: seq<Byte>, after: seq<Byte>, fail: bool, out: Option<MintEntry>)
    requires Reads(EntryCodec(), before, after, fail, out)
    ensures match EntryCodec().dec(before) {
      case None => out.None?
      case Some((v, n)) => n <= |before| && out == Some(v) && after == before[n..] && !fail
    }
  {
    hide Pair, IntXCodec, Counted;
  }
}
