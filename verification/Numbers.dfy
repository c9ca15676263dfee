/** Numbers that several components share. */
module Numbers {

  /** A millisecond in nanoseconds. */
  const MS: int := 1_000_000

  function Max0(n: int): nat {
    if n < 0 then 0 else n
  }
}
