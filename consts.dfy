/** Time and size units shared by every module. The repository imports them
    from a constants module that is not part of this model; the values here
    are Filecoin's (30-second epochs, 32 GiB sectors), and the proofs use
    only that they are positive. */
module Consts {

  /** Epochs per day (30-second epochs). */
  const DAY: nat := 2880

  /** Epochs per (365-day) year. */
  const YEAR: nat := 365 * DAY

  /** Bytes of power in one sector (32 GiB); power is committed in whole sectors. */
  const SECTOR_SIZE: nat := 34359738368

  function Min(a: real, b: real): real { if a <= b then a else b }

  function Max(a: real, b: real): real { if a >= b then a else b }

  function MinInt(a: int, b: int): int { if a <= b then a else b }
}
