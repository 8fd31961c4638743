module Clock {
  /** Math.floor(Date.now() / 1000) */
  function Seconds(now: int): int {
    now / 1000
  }
}
