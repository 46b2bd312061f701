/** The 64-bit integer arithmetic of the timers. */
module UInt64 {
  const UINT64: nat := 0x1_0000_0000_0000_0000
  const INT64_LIMIT: nat := 0x8000_0000_0000_0000
  /** The largest unsigned value, standing for "no time". */
  const INVALID_TIME: nat := UINT64 - 1

  /** Unsigned arithmetic wraps around. */
  function Wrap(x: int): nat { if 0 <= x < UINT64 then x else x % UINT64 }

  /** The conversion of an unsigned value to a signed one. */
  function ToInt64(u: nat): int { if u < INT64_LIMIT then u else u - UINT64 }
}
