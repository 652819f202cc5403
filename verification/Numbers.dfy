/** Fixed-width integers, and the two ways the node adds them. */
module Numbers {
  const TWO_16: int := 0x1_0000
  const TWO_24: int := 0x100_0000
  const TWO_32: int := 0x1_0000_0000
  const TWO_40: int := 0x100_0000_0000
  const TWO_64: int := 0x1_0000_0000_0000_0000
  const MAX_U64: int := TWO_64 - 1

  type u8 = x: int | 0 <= x < 0x100
  type u16 = x: int | 0 <= x < 0x1_0000
  type u32 = x: int | 0 <= x < 0x1_0000_0000
  type u64 = x: int | 0 <= x < 0x1_0000_0000_0000_0000

  /** A payment hash, preimage or offer id. */
  type Hash32 = h: seq<u8> | |h| == 32 witness seq(32, _ => 0)

  /** What a release build keeps of an unchecked 64-bit result. */
  function Wrap64(x: nat): u64 { x % TWO_64 }

  function Min(a: int, b: int): int { if a < b then a else b }

  /** One more term of at most `m` on top of `n` such terms. */
  lemma TermAdded(a: nat, b: nat, n: nat, m: nat)
    requires a <= n * m && b <= m
    ensures a + b <= (n + 1) * m
  {
  }

  function SaturatingAdd(a: u64, b: u64): u64 { Min(a + b, MAX_U64) }
}
