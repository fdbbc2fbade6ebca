/** Indirect blocks: rd_indir and wr_indir for both file system versions and both byte orders. */
module Indirect {
  import opened Base
  import Bitmap

  const BLOCK_SIZE: nat := 1024

  /** conv2 and conv4, arithmetically. */
  function Conv2(norm: bool, w: nat): nat
    requires w < 0x1_0000
  {
    if norm then w else w % 256 * 256 + w / 256
  }

  function Conv4(norm: bool, x: nat): nat
    requires x < 0x1_0000_0000
  {
    if norm then x else Conv2(false, x % 0x1_0000) * 0x1_0000 + Conv2(false, x / 0x1_0000)
  }

  /** The bytes of a number as the machine stores it, and the number that bytes stand for. */
  function Le2(b0: byte, b1: byte): nat { b0 + 256 * b1 }

  function Le4(b0: byte, b1: byte, b2: byte, b3: byte): nat { b0 + 256 * b1 + 0x1_0000 * b2 + 0x100_0000 * b3 }

  lemma Conv2Swaps(b0: byte, b1: byte)
    ensures Conv2(false, Le2(b0, b1)) == Le2(b1, b0)
  {
    assert Le2(b0, b1) % 256 == b0 && Le2(b0, b1) / 256 == b1;
  }

  lemma Conv4Swaps(b0: byte, b1: byte, b2: byte, b3: byte)
    ensures Conv4(false, Le4(b0, b1, b2, b3)) == Le4(b3, b2, b1, b0)
  {
    var x := Le4(b0, b1, b2, b3);
    assert x == Le2(b0, b1) + 0x1_0000 * Le2(b2, b3) && Le2(b0, b1) < 0x1_0000;
    assert x % 0x1_0000 == Le2(b0, b1) && x / 0x1_0000 == Le2(b2, b3);
    Conv2Swaps(b0, b1);
    Conv2Swaps(b2, b3);
  }

  // ---------- the same conversion on the bits of a word ----------

  /** The number that bits stand for, the least significant bit first. */
  function Number(bits: seq<bool>): nat {
    if bits == [] then 0 else (if bits[0] then 1 else 0) + 2 * Number(bits[1..])
  }

  lemma {:induction false} NumberTwo(a: seq<bool>, b: seq<bool>)
    requires |a| == 8 && |b| == 8
    ensures Number(a + b) == Number(a) + 256 * Number(b) && Number(a) < 256
  {
    NumberParts(a, b);
    NumberLimit(a);
  }

  function Power(n: nat): nat { if n == 0 then 1 else 2 * Power(n - 1) }

  lemma {:induction false} NumberParts(a: seq<bool>, b: seq<bool>)
    ensures Number(a + b) == Number(a) + Power(|a|) * Number(b)
  {
    if a == [] {
      assert a + b == b;
    } else {
      NumberParts(a[1..], b);
      assert (a + b)[1..] == a[1..] + b;
      Twice(Power(|a| - 1), Number(b));
    }
  }

  lemma Twice(p: nat, n: nat)
    ensures 2 * p * n == 2 * (p * n)
  {
  }

  lemma {:induction false} NumberLimit(a: seq<bool>)
    ensures Number(a) < Power(|a|)
  {
    if a != [] { NumberLimit(a[1..]); }
  }

  /** Exchanging the bytes of a word of a bit map is conv2 on the number it stands for. */
  lemma SameConversion(native: bool, w: Bitmap.Word)
    ensures Number(w) < 0x1_0000 && Number(Bitmap.ConvBits(native, w)) == Conv2(native, Number(w))
  {
    var a, b := w[..8], w[8..];
    assert w == a + b;
    NumberTwo(a, b);
    NumberTwo(b, a);
  }

  /** The kind of indirect block: V1 with 16-bit entries or V2 with 32-bit ones, in this or the other byte order. */
  datatype Kind = Kind(v1: bool, native: bool)

  /** Entries per indirect block, and the numbers an entry can hold. */
  function Entries(kind: Kind): nat { if kind.v1 then 512 else 256 }

  function Limit(kind: Kind): nat { if kind.v1 then 0x1_0000 else 0x1_0000_0000 }

  /** Entry i of an indirect block. */
  function Entry(kind: Kind, b: Block, i: nat): nat
    requires |b| == BLOCK_SIZE && i < Entries(kind)
  {
    if kind.v1 then
      if kind.native then Le2(b[2 * i], b[2 * i + 1]) else Le2(b[2 * i + 1], b[2 * i])
    else
      if kind.native then Le4(b[4 * i], b[4 * i + 1], b[4 * i + 2], b[4 * i + 3])
      else Le4(b[4 * i + 3], b[4 * i + 2], b[4 * i + 1], b[4 * i])
  }

  function ZeroBlock(): (b: Block)
    ensures |b| == BLOCK_SIZE
  {
    seq(BLOCK_SIZE, _ => 0)
  }

  lemma ZeroEntry(kind: Kind, i: nat)
    requires i < Entries(kind)
    ensures Entry(kind, ZeroBlock(), i) == 0
  {
  }

  /** b1 is b0 with entry i set to z. */
  ghost predicate EntrySet(kind: Kind, b0: Block, b1: Block, i: nat, z: nat) {
    && |b0| == |b1| == BLOCK_SIZE && i < Entries(kind) && Entry(kind, b1, i) == z
    && forall j :: 0 <= j < Entries(kind) && j != i ==> Entry(kind, b1, j) == Entry(kind, b0, j)
  }

  /** rd_indir, without the panic for a zone number outside the file system. */
  method RdIndir(kind: Kind, b: Block, i: nat) returns (z: nat)
    requires |b| == BLOCK_SIZE && i < Entries(kind)
    ensures z == Entry(kind, b, i)
  {
    if kind.v1 {
      Conv2Swaps(b[2 * i], b[2 * i + 1]);
      z := Conv2(kind.native, Le2(b[2 * i], b[2 * i + 1]));
    } else {
      Conv4Swaps(b[4 * i], b[4 * i + 1], b[4 * i + 2], b[4 * i + 3]);
      z := Conv4(kind.native, Le4(b[4 * i], b[4 * i + 1], b[4 * i + 2], b[4 * i + 3]));
    }
  }

  method Split2(w: nat) returns (b0: byte, b1: byte)
    requires w < 0x1_0000
    ensures Le2(b0, b1) == w
  {
    b0, b1 := w % 256, w / 256;
  }

  method Split4(x: nat) returns (b0: byte, b1: byte, b2: byte, b3: byte)
    requires x < 0x1_0000_0000
    ensures Le4(b0, b1, b2, b3) == x
  {
    b0, b1 := Split2(x % 0x1_0000);
    b2, b3 := Split2(x / 0x1_0000);
  }

  /** wr_indir: the entry is set and the others keep their values. */
  method WrIndir(kind: Kind, b: Block, i: nat, z: nat) returns (r: Block)
    requires |b| == BLOCK_SIZE && i < Entries(kind) && z < Limit(kind)
    ensures EntrySet(kind, b, r, i, z) && (z == Entry(kind, b, i) ==> r == b)
  {
    if kind.v1 {
      Conv2Range(z);
      var b0, b1 := Split2(Conv2(kind.native, z));
      r := b[2 * i := b0][2 * i + 1 := b1];
      Conv2Back(z, b0, b1);
      Set2(kind, b, r, i, b0, b1);
    } else {
      Conv4Range(z);
      var b0, b1, b2, b3 := Split4(Conv4(kind.native, z));
      r := b[4 * i := b0][4 * i + 1 := b1][4 * i + 2 := b2][4 * i + 3 := b3];
      Conv4Back(z, b0, b1, b2, b3);
      Set4(kind, b, r, i, b0, b1, b2, b3);
    }
  }

  lemma Conv2Range(w: nat)
    requires w < 0x1_0000
    ensures forall norm :: Conv2(norm, w) < 0x1_0000
  {
    assert w % 256 * 256 <= 255 * 256 && w / 256 < 256;
  }

  lemma Conv4Range(x: nat)
    requires x < 0x1_0000_0000
    ensures forall norm :: Conv4(norm, x) < 0x1_0000_0000
  {
    Conv2Range(x % 0x1_0000);
    Conv2Range(x / 0x1_0000);
  }

  /** Swapping bytes twice gives the number back. */
  lemma Conv2Back(z: nat, b0: byte, b1: byte)
    requires z < 0x1_0000
    ensures Le2(b0, b1) == Conv2(false, z) ==> Le2(b1, b0) == z
  {
    var c0: byte, c1: byte := z % 256, z / 256;
    Conv2Swaps(c0, c1);
  }

  lemma Conv4Back(z: nat, b0: byte, b1: byte, b2: byte, b3: byte)
    requires z < 0x1_0000_0000
    ensures Le4(b0, b1, b2, b3) == Conv4(false, z) ==> Le4(b3, b2, b1, b0) == z
  {
    var lo, hi := z % 0x1_0000, z / 0x1_0000;
    var c0: byte, c1: byte, c2: byte, c3: byte := lo % 256, lo / 256, hi % 256, hi / 256;
    Conv4Swaps(c0, c1, c2, c3);
    SameBytes(b0, b1, b2, b3, c3, c2, c1, c0);
  }

  lemma SameBytes(b0: byte, b1: byte, b2: byte, b3: byte, c0: byte, c1: byte, c2: byte, c3: byte)
    ensures Le4(b0, b1, b2, b3) == Le4(c0, c1, c2, c3) ==> b0 == c0 && b1 == c1 && b2 == c2 && b3 == c3
  {
    if Le4(b0, b1, b2, b3) == Le4(c0, c1, c2, c3) {
      SameHalves(Le2(b0, b1), Le2(b2, b3), Le2(c0, c1), Le2(c2, c3));
    }
  }

  lemma SameHalves(lo: nat, hi: nat, lo1: nat, hi1: nat)
    requires lo < 0x1_0000 && lo1 < 0x1_0000 && lo + 0x1_0000 * hi == lo1 + 0x1_0000 * hi1
    ensures lo == lo1 && hi == hi1
  {
  }

  lemma Set2(kind: Kind, b: Block, r: Block, i: nat, b0: byte, b1: byte)
    requires kind.v1 && |b| == BLOCK_SIZE && i < Entries(kind) && r == b[2 * i := b0][2 * i + 1 := b1]
    ensures var z := if kind.native then Le2(b0, b1) else Le2(b1, b0);
      EntrySet(kind, b, r, i, z) && (z == Entry(kind, b, i) ==> r == b)
  {
    var z := if kind.native then Le2(b0, b1) else Le2(b1, b0);
    if z == Entry(kind, b, i) { assert b0 == b[2 * i] && b1 == b[2 * i + 1]; }
  }

  lemma Set4(kind: Kind, b: Block, r: Block, i: nat, b0: byte, b1: byte, b2: byte, b3: byte)
    requires !kind.v1 && |b| == BLOCK_SIZE && i < Entries(kind)
    requires r == b[4 * i := b0][4 * i + 1 := b1][4 * i + 2 := b2][4 * i + 3 := b3]
    ensures var z := if kind.native then Le4(b0, b1, b2, b3) else Le4(b3, b2, b1, b0);
      EntrySet(kind, b, r, i, z) && (z == Entry(kind, b, i) ==> r == b)
  {
    SameBytes(b0, b1, b2, b3, b[4 * i], b[4 * i + 1], b[4 * i + 2], b[4 * i + 3]);
    SameBytes(b3, b2, b1, b0, b[4 * i + 3], b[4 * i + 2], b[4 * i + 1], b[4 * i]);
  }
}
