/** Machine integers: the bounds of the 64-bit types and their conversion. */
module Words {
  const TWO63 := 0x8000_0000_0000_0000
  const TWO64 := 0x1_0000_0000_0000_0000

  predicate Int64(x: int) { -TWO63 <= x < TWO63 }

  /** The conversion int64(x) of a uint64. */
  function ToInt64(x: nat): int {
    var y := x % TWO64; if y < TWO63 then y else y - TWO64
  }
}
