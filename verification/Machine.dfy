/** Machine-level vocabulary shared by the components: clock ticks, C++ integer widths, bytes. */
module Machine {

  /** `std::chrono::steady_clock` counts nanoseconds. */
  const SECOND: int := 1_000_000_000

  function Seconds(k: int): int {
    k * 1_000_000_000
  }

  function Millis(k: int): int {
    k * 1_000_000
  }

  type Int32 = x: int | -0x8000_0000 <= x < 0x8000_0000

  type Byte = x: int | 0 <= x < 256

  /** `static_cast<size_t>(x)` of a 32-bit `int`: a negative value becomes a huge one. */
  function AsSize(x: Int32): (n: nat)
    ensures 0 <= x ==> n == x
    ensures x < 0 ==> n > 0x7fff_ffff_ffff_ffff
  {
    if x < 0 then x + 0x1_0000_0000_0000_0000 else x
  }

  function Max(a: int, b: int): int {
    if a < b then b else a
  }

  function Min(a: int, b: int): int {
    if a < b then a else b
  }
}
