/** Types shared by the file system and network models. */
module Base {

  /** One byte of a disk block or of a packet buffer. */
  type byte = x: int | 0 <= x < 256

  /** The contents of one disk block. */
  type Block = seq<byte>

  datatype Option<+T> = None | Some(value: T)

  /** A block address: device number and block number on that device. */
  datatype Addr = Addr(dev: nat, blk: nat)

  const NO_DEV: nat := 0
  const NO_BLOCK: nat := 0

  /** /dev/ram, the device the second level cache keeps its blocks on. */
  const DEV_RAM: nat := 0x100

  /** The only_search argument of get_block. */
  datatype Mode = Normal | NoRead | Prefetch

  /** The bytes are put in place at `at`. */
  function Overwrite(s: seq<byte>, at: nat, bytes: seq<byte>): (r: seq<byte>)
    requires at + |bytes| <= |s|
    ensures |r| == |s|
  {
    s[..at] + bytes + s[at + |bytes|..]
  }
}
