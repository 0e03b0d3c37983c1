/**
 Packet buffers.  Offsets are signed and relative to the start of the data area, as in
 vlib; the memory includes the headroom in front of it, so offset `o` is memory index
 `HEADROOM + o`.
 */
module Buffers {
  import opened Basics

  const HEADROOM := 128

  /** The capture cookie of the punt path. */
  datatype Cookie = Cookie(valid: bool, origRx: nat, tag: seq<byte>)

  datatype Buffer = Buffer(
    mem: seq<byte>,
    current: int,
    length: int,
    l2: int,
    rx: nat,
    tx: nat,
    adj: nat,
    error: nat,
    cookie: Cookie)

  /** The `n` bytes at offset `o` lie in memory. */
  predicate Has(b: Buffer, o: int, n: nat) { 0 <= HEADROOM + o && HEADROOM + o + n <= |b.mem| }

  function Bytes(b: Buffer, o: int, n: nat): (r: seq<byte>)
    requires Has(b, o, n)
    ensures |r| == n
  {
    b.mem[HEADROOM + o..HEADROOM + o + n]
  }

  /** Moves the start of the packet; its end stays where it is. */
  function Advance(b: Buffer, n: int): Buffer { b.(current := b.current + n, length := b.length - n) }

  /** Where the packet ends. */
  function End(b: Buffer): int { b.current + b.length }
}
