/** What the plan of a token creation reads out of the token's metadata: which of four keys a struct of
    named values holds. */
module TokenMetadata {
  import opened Wrappers
  import opened Codecs
  import opened WireFormat
  import opened FaithfulCodecs
  import opened Views
  import opened VmNames
  import opened VmValues
  import opened VmStructs
  import opened VmCodec
  import opened VmFlat
  import opened VmLaws
  import opened VmReaders

  datatype MetaKeys = MetaKeys(preBurn: bool, inflationSchedule: bool, stakingOrganisation: bool, stakingRewardToken: bool)

  /** A reader of metadata. */
  type MetaReader = seq<Byte> -> Option<MetaKeys>

  /** The names of the four keys: _brn, _ip, _soi and _srt. */
  function PreBurn(): SmallString { [95, 98, 114, 110] }
  function InflationPeriod(): SmallString { [95, 105, 112] }
  function StakingOrgId(): SmallString { [95, 115, 111, 105] }
  function StakingRewardToken(): SmallString { [95, 115, 114, 116] }

  function KeysAt(fs: Fields): MetaKeys {
    MetaKeys(AtBound(fs, PreBurn()).Some?, AtBound(fs, InflationPeriod()).Some?, AtBound(fs, StakingOrgId()).Some?,
             AtBound(fs, StakingRewardToken()).Some?)
  }

  /** The keys of a struct of named values; bytes after it are not looked at. */
  function TokenMeta(b: seq<Byte>): Option<MetaKeys> {
    match StructOf(ValueCodec(|b|)).dec(b) { case None => None case Some((fs, _)) => Some(KeysAt(fs)) }
  }

  lemma FieldsInOrder(inner: Codec<Value>, b: seq<Byte>)
    ensures StructOf(inner).dec(b).Some? ==> Ordered(StructOf(inner).dec(b).value.0)
  {
    hide Sort, Ordered, FieldList;
    if FieldList(inner).dec(b).Some? {
      SortOrdered(FieldList(inner).dec(b).value.0);
    }
  }

  method ReadTokenMeta(b: seq<Byte>) returns (out: Option<MetaKeys>)
    ensures out == TokenMeta(b)
  {
    hide StructOf, ValueCodec, AtBound, Ordered;
    var r := new ReadView(b, false);
    FieldsInOrder(ValueCodec(|b|), b);
    var fields := ReadFields(r, |b|);
    if fields.None? {
      return None;
    }
    var preBurn := Lookup(fields.value, PreBurn());
    var inflation := Lookup(fields.value, InflationPeriod());
    var organisation := Lookup(fields.value, StakingOrgId());
    var reward := Lookup(fields.value, StakingRewardToken());
    out := Some(MetaKeys(preBurn.Some?, inflation.Some?, organisation.Some?, reward.Some?));
  }

  predicate Bears(fs: Fields, name: SmallString) {
    exists i :: 0 <= i < |fs| && fs[i].0 == name
  }

  lemma UntypedComesBack(fs: Fields, depth: nat, enough: nat, rest: seq<Byte>)
    requires Sorted(fs) && Short(fs) && StorableFields(fs, depth) && depth <= enough
    ensures StructOf(ValueCodec(enough)).dec(StructOf(ValueCodec(depth)).enc(fs) + rest) == Some((fs, |StructOf(ValueCodec(depth)).enc(fs)|))
  {
    hide StructOf, ValueCodec, Sorted, Storable, Faithful, Grows, Short;
    forall i | 0 <= i < |fs| ensures ValueCodec(depth).fits(fs[i].1) {
      ValueFitsIs(depth, fs[i].1);
    }
    FieldListFits(ValueCodec(depth), fs);
    ValueGrows(depth, enough);
    StructGrows(ValueCodec(depth), ValueCodec(enough), depth);
    Grown(StructOf(ValueCodec(depth)), StructOf(ValueCodec(enough)), depth, fs);
    ValueFaithful(enough);
    StructFaithful(ValueCodec(enough));
    FaithfulReadsBack(StructOf(ValueCodec(enough)), fs, rest);
  }

  lemma UntypedIsUnbounded(b: seq<Byte>, enough: nat)
    requires |b| <= enough
    ensures StructOf(ValueCodec(enough)).dec(b) == StructOf(ValueCodec(|b|)).dec(b)
  {
    hide StructOf, ValueCodec, Grows;
    ValueGrows(|b|, enough);
    StructGrows(ValueCodec(|b|), ValueCodec(enough), |b|);
    ReadAlike(StructOf(ValueCodec(|b|)), StructOf(ValueCodec(enough)), |b|, b);
  }

  lemma KeysBorne(fs: Fields)
    requires Sorted(fs) && Clean(fs)
    ensures KeysAt(fs) == MetaKeys(Bears(fs, PreBurn()), Bears(fs, InflationPeriod()), Bears(fs, StakingOrgId()), Bears(fs, StakingRewardToken()))
  {
    hide AtBound, Ordered, Sorted, Clean;
    SortedIsOrdered(fs);
    BoundFinds(fs, PreBurn());
    BoundFinds(fs, InflationPeriod());
    BoundFinds(fs, StakingOrgId());
    BoundFinds(fs, StakingRewardToken());
  }

  lemma KeyBytes()
    ensures PreBurn() == [0x5F, 0x62, 0x72, 0x6E] && InflationPeriod() == [0x5F, 0x69, 0x70]
    ensures StakingOrgId() == [0x5F, 0x73, 0x6F, 0x69] && StakingRewardToken() == [0x5F, 0x73, 0x72, 0x74]
  {
  }

  /** Whether fields are named _brn, _ip, _soi and _srt. */
  function KeysNamed(fs: Fields): MetaKeys {
    MetaKeys(Bears(fs, [0x5F, 0x62, 0x72, 0x6E]), Bears(fs, [0x5F, 0x69, 0x70]),
             Bears(fs, [0x5F, 0x73, 0x6F, 0x69]), Bears(fs, [0x5F, 0x73, 0x72, 0x74]))
  }

  lemma KeysByName(fs: Fields)
    requires Sorted(fs) && Clean(fs)
    ensures KeysAt(fs) == KeysNamed(fs)
  {
    hide KeysAt, Bears, Sorted, Clean;
    KeyBytes();
    KeysBorne(fs);
  }

  /** Metadata that was written is read for what it holds: each of the four answers is whether a field
      bears that key. */
  lemma WrittenKeysAreFound(fs: Fields, depth: nat, rest: seq<Byte>)
    requires Sorted(fs) && Clean(fs) && Short(fs) && StorableFields(fs, depth)
    ensures TokenMeta(StructOf(ValueCodec(depth)).enc(fs) + rest) == Some(KeysNamed(fs))
  {
    hide StructOf, ValueCodec, KeysAt, KeysNamed, Sorted, Clean, Short, StorableFields;
    var b := StructOf(ValueCodec(depth)).enc(fs) + rest;
    var enough := depth + |b|;
    UntypedComesBack(fs, depth, enough, rest);
    UntypedIsUnbounded(b, enough);
    KeysByName(fs);
  }

  lemma Grown<T(!new)>(c: Codec<T>, wider: Codec<T>, n: int, v: T)
    requires Grows(c, wider, n) && c.fits(v)
    ensures wider.fits(v) && wider.enc(v) == c.enc(v)
  {
  }

  lemma ReadAlike<T(!new)>(c: Codec<T>, wider: Codec<T>, n: int, s: seq<Byte>)
    requires Grows(c, wider, n) && |s| <= n
    ensures wider.dec(s) == c.dec(s)
  {
  }
}
