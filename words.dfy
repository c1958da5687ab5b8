/** Fixed-width unsigned integers of the firmware: `char` (a byte), `uint32_t`
    and `uint64_t`, with the two conversions the button handlers rely on. */
module Words {
  const MOD8: int := 0x100
  const MOD32: int := 0x1_0000_0000
  const MOD64: int := 0x1_0000_0000_0000_0000

  type u8 = x: int | 0 <= x < MOD8
  type u32 = x: int | 0 <= x < MOD32
  type u64 = x: int | 0 <= x < MOD64

  /** Storing a `uint64_t` into a `uint32_t` keeps the low 32 bits. */
  function Truncate(x: u64): (r: u32)
    ensures (x - r) % MOD32 == 0
    ensures x < MOD32 ==> r == x
  {
    x % MOD32
  }

  /** Unsigned `a - b` on `uint32_t`: the result wraps around modulo 2^32. */
  function Sub(a: u32, b: u32): (r: u32)
    ensures (b + r) % MOD32 == a
    ensures b <= a ==> r == a - b
    ensures a < b ==> r == MOD32 - (b - a)
  {
    (a - b) % MOD32
  }

  /** The wrapped difference is the only `uint32_t` that, added to `b`, gives `a` modulo 2^32. */
  lemma SubUnique(a: u32, b: u32, d: u32)
    requires (b + d) % MOD32 == a
    ensures Sub(a, b) == d
  {
    if b + d >= MOD32 {
      assert a == b + d - MOD32;
    } else {
      assert a == b + d;
    }
  }
}
