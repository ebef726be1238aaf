/** Machine words, bytes, and the result of something that may be absent. */
module Words {

  const W32: int := 0x1_0000_0000
  const W64: int := 0x1_0000_0000_0000_0000
  const W128: int := 0x1_0000_0000_0000_0000_0000_0000_0000_0000

  type byte = x: int | 0 <= x < 256
  type u32 = x: int | 0 <= x < W32
  type u64 = x: int | 0 <= x < W64
  type u128 = x: int | 0 <= x < W128

  datatype Option<+T> = None | Some(value: T)

  /** 2^k. */
  function Two(k: nat): (r: nat)
    ensures r >= 1
  {
    if k == 0 then 1 else 2 * Two(k - 1)
  }
}
