/**
 The bit maps of super.c: alloc_bit, free_bit, and on top of them alloc_zone,
 free_zone, alloc_inode and free_inode with their search hints.
 */
module Bitmap {

  /** A 16-bit word of a bit map, its least significant bit first. */
  type Word = w: seq<bool> | |w| == 16 witness seq(16, _ => false)

  const CHUNK_BITS: nat := 16
  const CHUNKS: nat := 512           // BITMAP_CHUNKS: words in a block
  const BLOCK_BITS: nat := 8192      // BITS_PER_BLOCK
  const NO_BIT: nat := 0

  /** conv2 on the bits of a word: the two bytes trade places unless the file system is in native order. */
  function ConvBits(native: bool, w: Word): (r: Word) {
    if native then w else w[8..] + w[..8]
  }

  lemma ConvBitsTwice(native: bool, w: Word)
    ensures ConvBits(native, ConvBits(native, w)) == w
  {
    if !native { assert (w[8..] + w[..8])[8..] == w[..8] && (w[8..] + w[..8])[..8] == w[8..]; }
  }

  function AllOnes(): Word { seq(16, _ => true) }

  type MapBlocks = seq<seq<Word>>

  /** Bit 0 is always set and the map fits its blocks. */
  ghost predicate MapOk(blocks: MapBlocks, native: bool, bits: nat) {
    // "true ==" makes this one fact to prove, not one for each part.
    true == (WholeBlocks(blocks) && 0 < bits <= |blocks| * BLOCK_BITS && Full(blocks, native, bits, 0, 1))
  }

  ghost predicate WholeBlocks(blocks: MapBlocks) {
    forall k :: 0 <= k < |blocks| ==> |blocks[k]| == CHUNKS
  }

  /** Where a bit is: block, word in the block, bit in the word. */
  datatype Place = Place(block: nat, word: nat, bit: nat)

  ghost predicate PlaceOk(p: Place, b: nat) {
    p.word < CHUNKS && p.bit < CHUNK_BITS && b == p.block * BLOCK_BITS + p.word * CHUNK_BITS + p.bit
  }

  lemma SomePlace(b: nat)
    ensures PlaceOk(Place(b / BLOCK_BITS, b % BLOCK_BITS / CHUNK_BITS, b % CHUNK_BITS), b)
  {
  }

  ghost function PlaceOfBit(b: nat): (p: Place)
    ensures PlaceOk(p, b)
  {
    SomePlace(b);
    var p :| PlaceOk(p, b);
    p
  }

  lemma OnePlace(b: nat, p: Place)
    requires PlaceOk(p, b)
    ensures PlaceOfBit(b) == p
  {
  }

  /** Bit b of the map, as the machine's own byte order has it. */
  ghost predicate Bit(blocks: MapBlocks, native: bool, b: nat) {
    var p := PlaceOfBit(b);
    p.block < |blocks| && p.word < |blocks[p.block]| && ConvBits(native, blocks[p.block][p.word])[p.bit]
  }

  /** Every bit of the map from lo up to hi is set. */
  ghost predicate Full(blocks: MapBlocks, native: bool, bits: nat, lo: nat, hi: nat) {
    forall c: nat :: lo <= c < hi && c < bits ==> Bit(blocks, native, c)
  }

  /** b is the least clear bit from lo on. */
  ghost predicate Least(blocks: MapBlocks, native: bool, bits: nat, lo: nat, b: nat) {
    lo <= b < bits && !Bit(blocks, native, b) && Full(blocks, native, bits, lo, b)
  }

  ghost predicate OneChanged(b0: MapBlocks, b1: MapBlocks, native: bool, bit: nat, value: bool) {
    && |b1| == |b0| && Bit(b1, native, bit) == value
    && (forall c: nat :: c != bit ==> (Bit(b1, native, c) <==> Bit(b0, native, c)))
  }

  /** The first bit of the word in which the search for a bit starts. */
  ghost function WordStart(origin: nat, bits: nat): nat {
    var p := PlaceOfBit(if origin >= bits then 0 else origin);
    p.block * BLOCK_BITS + p.word * CHUNK_BITS
  }

  /** What alloc_bit returns: the least clear bit from the start on, else the least clear bit at all. */
  ghost predicate Chosen(blocks: MapBlocks, native: bool, bits: nat, start: nat, b: nat) {
    Least(blocks, native, bits, start, b) || (Full(blocks, native, bits, start, bits)
      && Least(blocks, native, bits, 0, b))
  }

  lemma BitAt(block: nat, word: nat, i: nat)
    requires word < CHUNKS && i < CHUNK_BITS
    ensures PlaceOfBit(block * BLOCK_BITS + word * CHUNK_BITS + i) == Place(block, word, i)
  {
    OnePlace(block * BLOCK_BITS + word * CHUNK_BITS + i, Place(block, word, i));
  }

  function Stored(blocks: MapBlocks, block: nat, word: nat, w: Word): MapBlocks
    requires block < |blocks| && word < |blocks[block]|
  {
    var row: seq<Word> := blocks[block];
    blocks[block := row[word := w]]
  }

  /** Storing word k with only bit i changed. */
  lemma StoreBit(b0: MapBlocks, native: bool, block: nat, word: nat, i: nat, k: Word, value: bool)
    requires WholeBlocks(b0) && block < |b0| && word < CHUNKS && i < CHUNK_BITS
    requires k == ConvBits(native, b0[block][word])[i := value]
    ensures var b1 := Stored(b0, block, word, ConvBits(native, k));
      WholeBlocks(b1) && OneChanged(b0, b1, native, block * BLOCK_BITS + word * CHUNK_BITS + i, value)
  {
    var b1 := Stored(b0, block, word, ConvBits(native, k));
    var bit := block * BLOCK_BITS + word * CHUNK_BITS + i;
    ConvBitsTwice(native, k);
    BitAt(block, word, i);
    forall c: nat | c != bit ensures Bit(b1, native, c) <==> Bit(b0, native, c) {
      StoreOther(b0, b1, native, block, word, i, k, value, c);
    }
  }

  lemma StoreOther(b0: MapBlocks, b1: MapBlocks, native: bool, block: nat, word: nat, i: nat, k: Word, value: bool,
                   c: nat)
    requires WholeBlocks(b0) && block < |b0| && word < CHUNKS && i < CHUNK_BITS
    requires k == ConvBits(native, b0[block][word])[i := value] && b1 == Stored(b0, block, word, ConvBits(native, k))
    requires c != block * BLOCK_BITS + word * CHUNK_BITS + i
    ensures Bit(b1, native, c) <==> Bit(b0, native, c)
  {
    ConvBitsTwice(native, k);
  }

  lemma BitInWord(blocks: MapBlocks, native: bool, block: nat, word: nat, at: nat, c: nat)
    requires WholeBlocks(blocks) && block < |blocks| && word < CHUNKS
    requires at == block * BLOCK_BITS + word * CHUNK_BITS && at <= c < at + CHUNK_BITS
    ensures Bit(blocks, native, c) == ConvBits(native, blocks[block][word])[c - at]
  {
    BitAt(block, word, c - at);
  }

  lemma FullWord(blocks: MapBlocks, native: bool, bits: nat, block: nat, word: nat, lo: nat, at: nat, next: nat)
    requires WholeBlocks(blocks) && block < |blocks| && word < CHUNKS && blocks[block][word] == AllOnes()
    requires at == block * BLOCK_BITS + word * CHUNK_BITS && next == at + CHUNK_BITS
      && Full(blocks, native, bits, lo, at)
    ensures Full(blocks, native, bits, lo, next)
  {
    forall c: nat | lo <= c < next && c < bits ensures Bit(blocks, native, c) {
      if c >= at { FullBit(blocks, native, block, word, at, c); }
    }
  }

  lemma FullBit(blocks: MapBlocks, native: bool, block: nat, word: nat, at: nat, c: nat)
    requires WholeBlocks(blocks) && block < |blocks| && word < CHUNKS && blocks[block][word] == AllOnes()
    requires at == block * BLOCK_BITS + word * CHUNK_BITS && at <= c < at + CHUNK_BITS
    ensures Bit(blocks, native, c)
  {
    BitInWord(blocks, native, block, word, at, c);
  }

  /** The first clear bit of a word, after a full stretch of the map. */
  lemma FirstClear(blocks: MapBlocks, native: bool, bits: nat, block: nat, word: nat, lo: nat, at: nat, b: nat)
    requires WholeBlocks(blocks) && block < |blocks| && word < CHUNKS
    requires at == block * BLOCK_BITS + word * CHUNK_BITS && lo <= at <= b < at + CHUNK_BITS
    requires ClearAt(ConvBits(native, blocks[block][word]), b - at) && Full(blocks, native, bits, lo, at)
    ensures !Bit(blocks, native, b) && Full(blocks, native, bits, lo, b)
  {
    BitInWord(blocks, native, block, word, at, b);
    forall c: nat | lo <= c < b && c < bits ensures Bit(blocks, native, c) {
      if c >= at { BitInWord(blocks, native, block, word, at, c); }
    }
  }

  /** i is the lowest clear bit of k. */
  ghost predicate ClearAt(k: Word, i: nat) {
    i < CHUNK_BITS && !k[i] && forall j :: 0 <= j < i ==> k[j]
  }

  /** Searching a word that has a clear bit ends the search of the block. */
  lemma WordDone(blocks: MapBlocks, native: bool, bits: nat, block: nat, word: nat, lo: nat, hi: nat, at: nat, b: nat)
    requires MapOk(blocks, native, bits) && block < |blocks| && word < CHUNKS
    requires at == block * BLOCK_BITS + word * CHUNK_BITS && lo <= at <= b < at + CHUNK_BITS
    requires ClearAt(ConvBits(native, blocks[block][word]), b - at) && Full(blocks, native, bits, lo, at)
    ensures b != NO_BIT && (b < bits ==> Least(blocks, native, bits, lo, b))
      && (b >= bits ==> Full(blocks, native, bits, lo, hi))
  {
    FirstClear(blocks, native, bits, block, word, lo, at, b);
  }

  lemma SomeClear(native: bool, w: Word)
    requires w != AllOnes()
    ensures exists i :: 0 <= i < CHUNK_BITS && !ConvBits(native, w)[i]
  {
    var j :| 0 <= j < CHUNK_BITS && !w[j];
    var i := if native then j else if j < 8 then j + 8 else j - 8;
    assert ConvBits(native, w)[i] == w[j];
  }

  /** The blocks visited before round `next` hold no clear bit, from the start on. */
  ghost predicate Scanned(blocks: MapBlocks, native: bool, bits: nat, start: nat, next: nat) {
    if next < |blocks| then Full(blocks, native, bits, start, next * BLOCK_BITS)
    else
      && Full(blocks, native, bits, start, |blocks| * BLOCK_BITS)
      && Full(blocks, native, bits, 0, (next - |blocks|) * BLOCK_BITS)
  }

  /** The block visited in round `next`, from the start of the search or from its first word. */
  ghost predicate Round(blocks: MapBlocks, start: nat, next: nat, block: nat, word: nat) {
    && block < |blocks| && block == (if next < |blocks| then next else next - |blocks|)
    && (word == 0 || block * BLOCK_BITS + word * CHUNK_BITS == start)
    && (next < |blocks| && start > block * BLOCK_BITS ==> block * BLOCK_BITS + word * CHUNK_BITS == start)
  }

  lemma ScanStep(blocks: MapBlocks, native: bool, bits: nat, start: nat, next: nat, block: nat, word: nat)
    requires Scanned(blocks, native, bits, start, next) && Round(blocks, start, next, block, word)
    requires next >= |blocks| ==> word == 0
    requires Full(blocks, native, bits, block * BLOCK_BITS + word * CHUNK_BITS, (block + 1) * BLOCK_BITS)
    ensures Scanned(blocks, native, bits, start, next + 1)
  {
  }

  lemma ScanFound(blocks: MapBlocks, native: bool, bits: nat, start: nat, next: nat, block: nat, word: nat, b: nat)
    requires Scanned(blocks, native, bits, start, next) && Round(blocks, start, next, block, word)
      && bits <= |blocks| * BLOCK_BITS
    requires next >= |blocks| ==> word == 0
    requires start <= block * BLOCK_BITS + word * CHUNK_BITS || next >= |blocks|
    requires Least(blocks, native, bits, block * BLOCK_BITS + word * CHUNK_BITS, b)
    ensures Chosen(blocks, native, bits, start, b)
  {
  }

  /** The outcome of searching the bits from lo up to hi, and beyond. */
  ghost predicate Tried(b0: MapBlocks, b1: MapBlocks, native: bool, bits: nat, lo: nat, hi: nat, b: nat) {
    true == (
      if b == NO_BIT then b1 == b0 && Full(b0, native, bits, lo, hi)
      else Least(b0, native, bits, lo, b) && OneChanged(b0, b1, native, b, true))
  }

  /** What alloc_bit does. */
  ghost predicate AllocBitSpec(b0: MapBlocks, b1: MapBlocks, native: bool, bits: nat, origin: nat, b: nat) {
    true == (
      && (b == NO_BIT <==> Full(b0, native, bits, 0, bits))
      && (if b == NO_BIT then b1 == b0
          else Chosen(b0, native, bits, WordStart(origin, bits), b) && OneChanged(b0, b1, native, b, true)))
  }

  lemma AllocFound(b0: MapBlocks, b1: MapBlocks, native: bool, bits: nat, origin: nat, next: nat, block: nat,
                   word: nat, b: nat)
    requires Scanned(b0, native, bits, WordStart(origin, bits), next)
      && Round(b0, WordStart(origin, bits), next, block, word)
    requires bits <= |b0| * BLOCK_BITS && (next >= |b0| ==> word == 0)
    requires WordStart(origin, bits) <= block * BLOCK_BITS + word * CHUNK_BITS || next >= |b0|
    requires b != NO_BIT && Tried(b0, b1, native, bits, block * BLOCK_BITS + word * CHUNK_BITS,
      (block + 1) * BLOCK_BITS, b)
    ensures AllocBitSpec(b0, b1, native, bits, origin, b)
  {
    ScanFound(b0, native, bits, WordStart(origin, bits), next, block, word, b);
  }

  /** One bit map of a file system. */
  class BitMap {
    var blocks: MapBlocks      // the blocks of the map, as the cache shows them
    const native: bool         // s_native
    const bits: nat            // map_bits

    constructor (blocks0: MapBlocks, native0: bool, bits0: nat)
      ensures blocks == blocks0 && native == native0 && bits == bits0
    {
      blocks, native, bits := blocks0, native0, bits0;
    }

    ghost predicate Used(b: nat)
      reads this
    {
      Bit(blocks, native, b)
    }

    ghost predicate Valid()
      reads this
    {
      MapOk(blocks, native, bits)
    }

    /** The search of one block, from a word on, and the allocation of the bit found. */
    method TryBlock(block: nat, word: nat) returns (b: nat)
      requires Valid() && block < |blocks| && word < CHUNKS
      modifies this
      ensures Valid() && Tried(old(blocks), blocks, native, bits, block * BLOCK_BITS + word * CHUNK_BITS,
        (block + 1) * BLOCK_BITS, b)
    {
      var w, at := word, block * BLOCK_BITS + word * CHUNK_BITS;
      ghost var lo := at;
      while w < CHUNKS
        invariant word <= w <= CHUNKS && blocks == old(blocks) && at == block * BLOCK_BITS + w * CHUNK_BITS
        invariant lo <= at && Full(blocks, native, bits, lo, at) == true
      {
        if blocks[block][w] != AllOnes() {
          b := TryWord(block, w, at, lo, (block + 1) * BLOCK_BITS);
          return;
        }
        FullWord(blocks, native, bits, block, w, lo, at, at + CHUNK_BITS);
        w, at := w + 1, at + CHUNK_BITS;
      }
      b := NO_BIT;
    }

    /** A word with a clear bit: allocate it unless it lies beyond the end of the map. */
    method TryWord(block: nat, w: nat, at: nat, ghost lo: nat, ghost hi: nat) returns (b: nat)
      requires Valid() && block < |blocks| && w < CHUNKS && blocks[block][w] != AllOnes()
      requires at == block * BLOCK_BITS + w * CHUNK_BITS && lo <= at && Full(blocks, native, bits, lo, at)
      modifies this
      ensures Valid() && Tried(old(blocks), blocks, native, bits, lo, hi, b)
    {
      var i := LowestClear(blocks[block][w]);
      b := at + i;
      WordDone(blocks, native, bits, block, w, lo, hi, at, b);
      if b >= bits { return NO_BIT; }
      SetBit(block, w, i, b);
    }

    method SetBit(block: nat, w: nat, i: nat, ghost b: nat)
      requires Valid() && block < |blocks| && w < CHUNKS && i < CHUNK_BITS
        && b == block * BLOCK_BITS + w * CHUNK_BITS + i
      modifies this
      ensures Valid() && OneChanged(old(blocks), blocks, native, b, true)
    {
      var k := ConvBits(native, blocks[block][w])[i := true];
      StoreBit(blocks, native, block, w, i, k, true);
      blocks := Stored(blocks, block, w, ConvBits(native, k));
    }

    /** The inner loop over the bits of a word that has a clear one. */
    method LowestClear(w: Word) returns (i: nat)
      requires w != AllOnes()
      ensures ClearAt(ConvBits(native, w), i)
    {
      var k := ConvBits(native, w);
      SomeClear(native, w);
      i := 0;
      while k[i]
        invariant i < CHUNK_BITS && forall j :: 0 <= j < i ==> k[j]
        decreases CHUNK_BITS - i
      {
        i := i + 1;
      }
    }

    /** The word with which a search starts. */
    method Locate(from: nat) returns (block: nat, word: nat)
      requires Valid() && from < bits
      ensures block < |blocks| && word < CHUNKS && PlaceOfBit(from).block == block && PlaceOfBit(from).word == word
    {
      block, word := from / BLOCK_BITS, from % BLOCK_BITS / CHUNK_BITS;
      SomePlace(from);
      OnePlace(from, Place(block, word, from % CHUNK_BITS));
    }

    /** alloc_bit */
    method AllocBit(origin: nat) returns (b: nat)
      requires Valid()
      modifies this
      ensures Valid() && AllocBitSpec(old(blocks), blocks, native, bits, origin, b)
    {
      var block: nat, word: nat := Locate(if origin >= bits then 0 else origin);
      ghost var start, first, next := WordStart(origin, bits), block, block;
      var bcount := |blocks| + 1;
      while bcount > 0
        invariant Valid() && blocks == old(blocks) && word < CHUNKS && 0 <= bcount && first <= next
        invariant next + bcount == first + |blocks| + 1 && first * BLOCK_BITS <= start < (first + 1) * BLOCK_BITS
        invariant bcount > 0 ==> Round(blocks, start, next, block, word)
        invariant next > first ==> word == 0
        invariant Scanned(blocks, native, bits, start, next)
      {
        b := TryBlock(block, word);
        if b != NO_BIT {
          AllocFound(old(blocks), blocks, native, bits, origin, next, block, word, b);
          return;
        }
        ScanStep(blocks, native, bits, start, next, block, word);
        next := next + 1;
        block := block + 1;
        if block >= |blocks| { block := 0; }
        word := 0;
        bcount := bcount - 1;
      }
      b := NO_BIT;
    }

    /** free_bit; the bit must be set, or the file system panics. */
    method FreeBit(b: nat) returns (panicked: bool)
      requires Valid() && 0 < b < bits
      modifies this
      ensures Valid() && (panicked <==> !old(Used(b)))
      ensures if panicked then blocks == old(blocks) else OneChanged(old(blocks), blocks, native, b, false)
    {
      var block, word, bit := b / BLOCK_BITS, b % BLOCK_BITS / CHUNK_BITS, b % CHUNK_BITS;
      FreePlace(blocks, native, bits, b);
      var k := ConvBits(native, blocks[block][word]);
      if !k[bit] { return true; }
      StoreBit(blocks, native, block, word, bit, k[bit := false], false);
      blocks := Stored(blocks, block, word, ConvBits(native, k[bit := false]));
      panicked := false;
    }
  }

  lemma FreePlace(blocks: MapBlocks, native: bool, bits: nat, b: nat)
    requires MapOk(blocks, native, bits) && b < bits
    ensures var block, word, bit := b / BLOCK_BITS, b % BLOCK_BITS / CHUNK_BITS, b % CHUNK_BITS;
      && block < |blocks| && word < CHUNKS && word < |blocks[block]|
      && b == block * BLOCK_BITS + word * CHUNK_BITS + bit
      && (Bit(blocks, native, b) <==> ConvBits(native, blocks[block][word])[bit])
  {
    SomePlace(b);
    OnePlace(b, Place(b / BLOCK_BITS, b % BLOCK_BITS / CHUNK_BITS, b % CHUNK_BITS));
  }
}
