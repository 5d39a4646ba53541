/** The arena allocator: chunks of at least 64 KiB, bump allocation from the newest one, no release
    before Clear. Where a new chunk lies is the platform's choice and enters as a parameter. */
module Arena {
  import opened Codecs
  import opened Words64
  import opened Positional
  import Bits

  /** A piece of memory: where it lies, how much of it is handed out, and what it holds. */
  datatype Chunk = Chunk(base: nat, size: nat, used: nat, data: seq<Byte>)

  /** Memory handed out since the last Clear, in the chunk of that number (the oldest is 0). */
  datatype Block = Block(chunk: nat, address: nat, length: nat)

  predicate Apart(a: Chunk, b: Chunk) {
    a.base + a.size <= b.base || b.base + b.size <= a.base
  }

  predicate Disjoint(a: Block, b: Block) {
    a.address + a.length <= b.address || b.address + b.length <= a.address
  }

  /** The block lies in the part of the chunk that is handed out. */
  predicate Inside(b: Block, c: Chunk) {
    c.base <= b.address && b.address + b.length <= c.base + c.used
  }

  predicate Sound(chunks: seq<Chunk>, blocks: seq<Block>) {
    && chunks != []
    && (forall i :: 0 <= i < |chunks| ==> chunks[i].used <= chunks[i].size == |chunks[i].data| && chunks[i].base > 0)
    && (forall i, j :: 0 <= i < j < |chunks| ==> Apart(chunks[i], chunks[j]))
    && (forall k :: 0 <= k < |blocks| ==> blocks[k].chunk < |chunks| && Inside(blocks[k], chunks[blocks[k].chunk]))
    && (forall k, l :: 0 <= k < l < |blocks| ==> Disjoint(blocks[k], blocks[l]))
  }

  /** What a block holds. */
  function Held(chunks: seq<Chunk>, b: Block): seq<Byte>
    requires b.chunk < |chunks| && Inside(b, chunks[b.chunk]) && chunks[b.chunk].used <= |chunks[b.chunk].data|
  {
    var c := chunks[b.chunk];
    c.data[b.address - c.base..b.address - c.base + b.length]
  }

  /** Every block still lies in a live chunk and holds what it held. */
  predicate Intact(before: seq<Chunk>, after: seq<Chunk>, blocks: seq<Block>)
    requires Sound(before, blocks)
  {
    && (forall i :: 0 <= i < |after| ==> after[i].used <= |after[i].data|)
    && forall k :: 0 <= k < |blocks| ==>
         blocks[k].chunk < |after| && Inside(blocks[k], after[blocks[k].chunk]) && Held(after, blocks[k]) == Held(before, blocks[k])
  }

  // ---- alignment and chunk sizes ------------------------------------------------------------

  /** The next multiple of an alignment. */
  function AlignUp(p: nat, align: nat): (a: nat)
    requires align > 0
  {
    AlignedNear(p, align);
    ((p + align - 1) / align) * align
  }

  lemma AlignedNear(p: nat, align: nat)
    requires align > 0
    ensures var a := ((p + align - 1) / align) * align; p <= a < p + align && a % align == 0
  {
    Quotients(p + align - 1, align);
    Bits.DivModIs(((p + align - 1) / align) * align, align, (p + align - 1) / align, 0);
  }

  /** Memory from the platform is aligned for every type, so a fresh chunk needs no padding. */
  lemma AlreadyAligned(p: nat, align: nat)
    requires align > 0 && 16 % align == 0 && p % 16 == 0
    ensures AlignUp(p, align) == p
  {
    Quotients(p, 16);
    Quotients(16, align);
    var q, k: nat := p / 16, 16 / align;
    assert p == q * (k * align) == (q * k) * align;
    Bits.DivModIs(p, align, q * k, 0);
    AlignedNear(p, align);
    var a := AlignUp(p, align);
    Quotients(a, align);
    var m: nat := a / align;
    if m > q * k {
      OneMore(align, q * k, m);
    } else if m < q * k {
      OneMore(align, m, q * k);
    }
  }

  function ChunkSize(required: nat): (s: nat)
    ensures s >= required && s % 65536 == 0 && s < required + 65536
  {
    ((required + 65535) / 65536) * 65536
  }

  // ---- what one allocation does to the memory -----------------------------------------------

  /** The newest chunk after n more bytes are handed out. */
  function Grown(chunks: seq<Chunk>, used: nat, data: seq<Byte>): seq<Chunk>
    requires chunks != []
  {
    var head := |chunks| - 1;
    chunks[head := chunks[head].(used := used, data := data)]
  }

  /** A block cut from the unused end of the newest chunk keeps everything sound: it is disjoint from
      every block before it, and what those hold does not change. */
  lemma BlockAdded(chunks: seq<Chunk>, blocks: seq<Block>, address: nat, length: nat, data: seq<Byte>)
    requires Sound(chunks, blocks) && CutFrom(chunks[|chunks| - 1], address, length, data)
    ensures Sound(Grown(chunks, address + length - chunks[|chunks| - 1].base, data), blocks + [Block(|chunks| - 1, address, length)])
    ensures Intact(chunks, Grown(chunks, address + length - chunks[|chunks| - 1].base, data), blocks)
  {
    hide Held, Inside, Disjoint;
    var head := |chunks| - 1;
    var b := Block(head, address, length);
    var grown := Grown(chunks, address + length - chunks[head].base, data);
    forall k | 0 <= k < |blocks|
      ensures Disjoint(blocks[k], b) && Inside(blocks[k], grown[blocks[k].chunk])
      ensures Held(grown, blocks[k]) == Held(chunks, blocks[k])
    {
      BlockKept(chunks, grown, blocks[k], b);
    }
    ChunksKept(chunks, grown);
    BlockInHead(chunks[head], address, length, data);
    AllInside(grown, blocks, b);
  }

  /** A cut from the unused end of a chunk that leaves the used part as it is. */
  predicate CutFrom(h: Chunk, address: nat, length: nat, data: seq<Byte>) {
    && h.base + h.used <= address && address + length <= h.base + h.size && h.used <= |h.data|
    && |data| == |h.data| && data[..h.used] == h.data[..h.used]
  }

  lemma BlockInHead(h: Chunk, address: nat, length: nat, data: seq<Byte>)
    requires CutFrom(h, address, length, data)
    ensures Inside(Block(0, address, length), h.(used := address + length - h.base, data := data))
    ensures forall n :: Inside(Block(n, address, length), h.(used := address + length - h.base, data := data))
  {
  }

  lemma ChunksKept(chunks: seq<Chunk>, grown: seq<Chunk>)
    requires chunks != [] && |grown| == |chunks| && forall i :: 0 <= i < |chunks| ==> grown[i].base == chunks[i].base && grown[i].size == chunks[i].size
    requires forall i, j :: 0 <= i < j < |chunks| ==> Apart(chunks[i], chunks[j])
    ensures forall i, j :: 0 <= i < j < |grown| ==> Apart(grown[i], grown[j])
  {
    forall i, j | 0 <= i < j < |grown| ensures Apart(grown[i], grown[j]) {
      assert Apart(chunks[i], chunks[j]);
    }
  }

  /** The newest chunk of a sound arena. */
  lemma HeadOf(chunks: seq<Chunk>, blocks: seq<Block>)
    requires Sound(chunks, blocks)
    ensures chunks != []
    ensures var h := chunks[|chunks| - 1]; h.used <= h.size == |h.data| && h.base > 0
  {
  }

  lemma AllInside(grown: seq<Chunk>, blocks: seq<Block>, b: Block)
    requires grown != [] && b.chunk < |grown| && Inside(b, grown[b.chunk])
    requires forall k :: 0 <= k < |blocks| ==> blocks[k].chunk < |grown| && Inside(blocks[k], grown[blocks[k].chunk]) && Disjoint(blocks[k], b)
    requires forall k, l :: 0 <= k < l < |blocks| ==> Disjoint(blocks[k], blocks[l])
    ensures
      var more := blocks + [b];
      && (forall k :: 0 <= k < |more| ==> more[k].chunk < |grown| && Inside(more[k], grown[more[k].chunk]))
      && (forall k, l :: 0 <= k < l < |more| ==> Disjoint(more[k], more[l]))
  {
  }

  lemma BlockKept(chunks: seq<Chunk>, grown: seq<Chunk>, earlier: Block, b: Block)
    requires chunks != [] && |grown| == |chunks| && earlier.chunk < |chunks| && Inside(earlier, chunks[earlier.chunk])
    requires forall i :: 0 <= i < |chunks| ==> chunks[i].used <= chunks[i].size && |chunks[i].data| == chunks[i].size
    requires forall i, j :: 0 <= i < j < |chunks| ==> Apart(chunks[i], chunks[j])
    requires forall i :: 0 <= i < |chunks| - 1 ==> grown[i] == chunks[i]
    requires
      var h, g := chunks[|chunks| - 1], grown[|chunks| - 1];
      && g.base == h.base && g.size == h.size && h.used <= g.used <= g.size && |g.data| == |h.data| && g.data[..h.used] == h.data[..h.used]
      && h.base + h.used <= b.address && b.address + b.length <= h.base + h.size
    ensures Disjoint(earlier, b) && Inside(earlier, grown[earlier.chunk])
    ensures grown[earlier.chunk].used <= |grown[earlier.chunk].data| && chunks[earlier.chunk].used <= |chunks[earlier.chunk].data|
    ensures Held(grown, earlier) == Held(chunks, earlier)
  {
    var head := |chunks| - 1;
    var h, g := chunks[head], grown[head];
    if earlier.chunk == head {
      var from: nat := earlier.address - h.base;
      SliceOfPrefix(g.data, h.used, from, from + earlier.length);
      SliceOfPrefix(h.data, h.used, from, from + earlier.length);
    } else {
      assert Apart(chunks[earlier.chunk], chunks[head]);
    }
  }

  lemma SliceOfPrefix(s: seq<Byte>, n: nat, from: nat, to: nat)
    requires from <= to <= n <= |s|
    ensures s[from..to] == s[..n][from..to]
  {
  }

  /** Where a block of so many bytes goes: behind the alignment in the newest chunk, or, where it does not fit
      there, to the front of a new chunk of 65536 bytes or the next multiple of that. */
  predicate Placed(before: seq<Chunk>, after: seq<Chunk>, align: nat, bytes: nat, base: nat, address: nat)
    requires before != [] && align > 0
  {
    var h := before[|before| - 1];
    if AlignUp(h.base + h.used, align) + bytes <= h.base + h.size then
      address == AlignUp(h.base + h.used, align) && after == Grown(before, address + bytes - h.base, h.data)
    else
      && address == base && |after| == |before| + 1 && after[..|before|] == before
      && after[|before|].size == ChunkSize(bytes) && after[|before|].used == bytes
  }

  lemma ChunkAdded(chunks: seq<Chunk>, blocks: seq<Block>, c: Chunk)
    requires Sound(chunks, blocks) && c.used == 0 && |c.data| == c.size && c.base > 0
    requires forall i :: 0 <= i < |chunks| ==> Apart(chunks[i], c)
    ensures Sound(chunks + [c], blocks)
    ensures Intact(chunks, chunks + [c], blocks)
  {
    var more := chunks + [c];
    forall i, j | 0 <= i < j < |more| ensures Apart(more[i], more[j]) {
      if j < |chunks| { assert Apart(chunks[i], chunks[j]); }
    }
  }

  // ---- the allocator ------------------------------------------------------------------------

  class Allocator {
    /** Oldest first; the newest chunk is the one allocations are cut from. */
    var chunks: seq<Chunk>
    /** Every block handed out since the last Clear, in order. */
    ghost var blocks: seq<Block>

    ghost predicate Valid()
      reads this
    {
      Sound(chunks, blocks)
    }

    /** Memory the platform can return: aligned for every type and apart from every live chunk. */
    predicate Fresh(base: nat, required: nat)
      reads this
    {
      base % 16 == 0 && base > 0 && forall i :: 0 <= i < |chunks| ==> Apart(chunks[i], Chunk(base, ChunkSize(required), 0, []))
    }

    /** A new arena owns one chunk. */
    constructor (base: nat)
      requires base % 16 == 0 && base > 0
      ensures Valid() && blocks == [] && |chunks| == 1 && chunks[0].used == 0 && chunks[0].base == base && chunks[0].size == 65536
    {
      chunks := [Chunk(base, 65536, 0, seq(65536, _ => 0xFF))];
      blocks := [];
    }

    method NewChunk(required: nat, base: nat)
      requires Valid() && required > 0 && Fresh(base, required)
      modifies this`chunks
      ensures Valid() && |chunks| == |old(chunks)| + 1 && chunks[..|old(chunks)|] == old(chunks)
      ensures
        var c := chunks[|old(chunks)|];
        c.base == base && c.used == 0 && c.size == ChunkSize(required) && |c.data| == c.size
      ensures Intact(old(chunks), chunks, blocks)
    {
      var chunkSize := ChunkSize(required);
      var c := Chunk(base, chunkSize, 0, seq(chunkSize, _ => 0xFF));
      ChunkAdded(chunks, blocks, c);
      chunks := chunks + [c];
    }

    /** Bump allocation from the newest chunk, padded to the alignment; 0 when it does not fit. */
    method AllocFromHead(bytes: nat, align: nat) returns (address: nat)
      requires Valid() && bytes > 0 && align > 0
      modifies this
      ensures Valid() && Intact(old(chunks), chunks, old(blocks))
      ensures
        var h := old(chunks[|chunks| - 1]);
        if AlignUp(h.base + h.used, align) + bytes > h.base + h.size then
          address == 0 && chunks == old(chunks) && blocks == old(blocks)
        else
          && address == AlignUp(h.base + h.used, align) > 0
          && chunks == Grown(old(chunks), address + bytes - h.base, h.data)
          && blocks == old(blocks) + [Block(|chunks| - 1, address, bytes)]
    {
      hide Sound, Intact;
      HeadOf(chunks, blocks);
      var head := chunks[|chunks| - 1];
      var prev := head.used;
      var required := bytes;
      var index := prev;
      var original := head.base + prev;
      var aligned := AlignUp(original, align);
      AlignedNear(original, align);
      if original != aligned {
        var extra := aligned - original;
        required := required + extra;
        index := index + extra;
      }
      if head.used + required > head.size {
        NothingMoved(chunks, blocks);
        return 0;
      }
      BlockAdded(chunks, blocks, aligned, bytes, head.data);
      chunks := Grown(chunks, head.used + required, head.data);
      blocks := blocks + [Block(|chunks| - 1, aligned, bytes)];
      address := head.base + index;
    }

    /** Room for count objects, aligned, from the newest chunk or from a new one; none for no objects. */
    method Alloc(size: nat, align: nat, count: nat, base: nat) returns (address: nat)
      requires Valid() && size > 0 && align > 0 && 16 % align == 0 && Fresh(base, Product(size, count))
      modifies this
      ensures Valid() && Intact(old(chunks), chunks, old(blocks))
      ensures count == 0 ==> address == 0 && chunks == old(chunks) && blocks == old(blocks)
      ensures count > 0 ==>
        && address > 0 && address % align == 0 && |blocks| == |old(blocks)| + 1 && blocks[..|old(blocks)|] == old(blocks)
        && blocks[|old(blocks)|].address == address && blocks[|old(blocks)|].length == Product(size, count)
      ensures count > 0 ==> Placed(old(chunks), chunks, align, Product(size, count), base, address)
    {
      hide Sound, Intact;
      if count == 0 {
        NothingMoved(chunks, blocks);
        return 0;
      }
      SomeBytes(size, count);
      HeadOf(chunks, blocks);
      var bytes := Product(size, count);
      address := AllocFromHead(bytes, align);
      AlignedNear(old(chunks[|chunks| - 1].base + chunks[|chunks| - 1].used), align);
      if address == 0 {
        NewChunk(bytes, base);
        AlreadyAligned(base, align);
        AlignedNear(base, align);
        label grown:
        address := AllocFromHead(bytes, align);
        IntactTwice(old(chunks), old@grown(chunks), chunks, old(blocks));
      }
    }

    /** Copies bytes into the end of the newest chunk; false when they do not fit. */
    method CloneIntoHead(input: seq<Byte>) returns (ok: bool)
      requires Valid() && input != []
      modifies this
      ensures Valid() && Intact(old(chunks), chunks, old(blocks))
      ensures ok <==> old(chunks[|chunks| - 1].used) + |input| <= old(chunks[|chunks| - 1].size)
      ensures !ok ==> chunks == old(chunks) && blocks == old(blocks)
      ensures ok ==>
        var h := old(chunks[|chunks| - 1]);
        && blocks == old(blocks) + [Block(|chunks| - 1, h.base + h.used, |input|)]
        && Held(chunks, blocks[|old(blocks)|]) == input
        && |chunks| == |old(chunks)| && chunks[..|chunks| - 1] == old(chunks[..|chunks| - 1])
        && chunks[|chunks| - 1].used == h.used + |input| && chunks[|chunks| - 1].size == h.size
    {
      hide Sound, Intact;
      HeadOf(chunks, blocks);
      var head := chunks[|chunks| - 1];
      if head.used + |input| > head.size {
        NothingMoved(chunks, blocks);
        return false;
      }
      var prev := head.used;
      var data := head.data[..prev] + input + head.data[prev + |input|..];
      BlockAdded(chunks, blocks, head.base + prev, |input|, data);
      chunks := Grown(chunks, prev + |input|, data);
      blocks := blocks + [Block(|chunks| - 1, head.base + prev, |input|)];
      assert data[prev..prev + |input|] == input;
      HeldInHead(chunks, head.base + prev, |input|);
      ok := true;
    }

    /** A copy of the bytes that stays what it is until Clear. */
    method Clone(input: seq<Byte>, base: nat)
      requires Valid() && Fresh(base, |input|)
      modifies this
      ensures Valid() && Intact(old(chunks), chunks, old(blocks))
      ensures input == [] ==> chunks == old(chunks) && blocks == old(blocks)
      ensures input != [] ==>
        && |blocks| == |old(blocks)| + 1 && blocks[..|old(blocks)|] == old(blocks)
        && blocks[|old(blocks)|].length == |input| && Held(chunks, blocks[|old(blocks)|]) == input
      ensures input != [] ==>
        var h := old(chunks[|chunks| - 1]);
        if h.used + |input| <= h.size then
          && blocks[|old(blocks)|].address == h.base + h.used && |chunks| == |old(chunks)|
          && chunks[|chunks| - 1].used == h.used + |input| && chunks[|chunks| - 1].size == h.size
        else
          && blocks[|old(blocks)|].address == base && |chunks| == |old(chunks)| + 1 && chunks[..|old(chunks)|] == old(chunks)
          && chunks[|old(chunks)|].size == ChunkSize(|input|) && chunks[|old(chunks)|].used == |input|
    {
      if input == [] {
        NothingMoved(chunks, blocks);
        return;
      }
      var ok := CloneIntoHead(input);
      if !ok {
        NewChunk(|input|, base);
        label grown:
        ok := CloneIntoHead(input);
        IntactTwice(old(chunks), old@grown(chunks), chunks, old(blocks));
      }
    }

    /** Gives every block back: only the newest chunk is kept, empty. */
    method Clear()
      requires Valid()
      modifies this
      ensures Valid() && blocks == [] && |chunks| == 1
      ensures chunks[0].base == old(chunks[|chunks| - 1].base) && chunks[0].size == old(chunks[|chunks| - 1].size) && chunks[0].used == 0
    {
      var head := chunks[|chunks| - 1];
      chunks := [head.(used := 0, data := seq(head.size, _ => 0xCC))];
      blocks := [];
    }
  }

  lemma HeldInHead(chunks: seq<Chunk>, address: nat, length: nat)
    requires chunks != []
    requires
      var h := chunks[|chunks| - 1];
      h.base <= address && address + length <= h.base + h.used && h.used <= |h.data|
    ensures
      var h := chunks[|chunks| - 1];
      Held(chunks, Block(|chunks| - 1, address, length)) == h.data[address - h.base..address - h.base + length]
  {
  }

  lemma NothingMoved(chunks: seq<Chunk>, blocks: seq<Block>)
    requires Sound(chunks, blocks)
    ensures Intact(chunks, chunks, blocks)
  {
  }

  lemma IntactTwice(a: seq<Chunk>, b: seq<Chunk>, c: seq<Chunk>, blocks: seq<Block>)
    requires Sound(a, blocks) && Sound(b, blocks) && Intact(a, b, blocks) && Intact(b, c, blocks)
    ensures Intact(a, c, blocks)
  {
  }

  lemma SomeBytes(size: nat, count: nat)
    requires size > 0 && count > 0
    ensures Product(size, count) > 0
  {
    Grow(1, size, count);
  }
}
