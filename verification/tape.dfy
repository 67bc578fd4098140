/**
 * Cells and the data pointer: unsigned 8-bit cells with wrapping add and
 * subtract, and a pointer that moves around a circular tape of `n >= 1` cells.
 */
module Tape {

  /** An unsigned 8-bit cell value. */
  newtype u8 = x: int | 0 <= x < 256

  /** Wrapping increment (`overflowing_add(1)`, overflow flag dropped). */
  function Inc(v: u8): (r: u8)
    ensures r as int == (v as int + 1) % 256
  {
    if v < 255 then v + 1 else 0
  }

  /** Wrapping decrement (`overflowing_sub(1)`, overflow flag dropped). */
  function Dec(v: u8): (r: u8)
    ensures r as int == (v as int + 255) % 256
  {
    if v >= 1 then v - 1 else 255
  }

  /** Increment and decrement undo each other, in both orders. */
  lemma IncDecInverse(v: u8)
    ensures Dec(Inc(v)) == v && Inc(Dec(v)) == v
  {
  }

  /** Pointer move to the right on a tape of `n` cells: the last cell wraps to 0. */
  function MoveRight(p: nat, n: nat): (r: nat)
    requires p < n
    ensures r < n
    ensures r == (p + 1) % n
  {
    if p < n - 1 then p + 1 else 0
  }

  /** Pointer move to the left on a tape of `n` cells: cell 0 wraps to `n - 1`. */
  function MoveLeft(p: nat, n: nat): (r: nat)
    requires p < n
    ensures r < n
    ensures r == (p + n - 1) % n
  {
    if p >= 1 then p - 1 else n - 1
  }

  /** A move right followed by a move left (or the reverse) restores the pointer. */
  lemma MoveInverse(p: nat, n: nat)
    requires p < n
    ensures MoveLeft(MoveRight(p, n), n) == p
    ensures MoveRight(MoveLeft(p, n), n) == p
  {
  }

  /** The pointer after `k` moves to the right, one at a time. */
  function RightTimes(p: nat, n: nat, k: nat): (r: nat)
    requires p < n
    ensures r < n
  {
    if k == 0 then p else MoveRight(RightTimes(p, n, k - 1), n)
  }

  /**
   * Up to a full turn, `k` moves to the right advance the pointer by `k`,
   * passing from the last cell back to cell 0 at most once.
   */
  lemma {:induction false} RightTimesAdvance(p: nat, n: nat, k: nat)
    requires p < n && k <= n
    ensures RightTimes(p, n, k) == if p + k < n then p + k else p + k - n
  {
    if k > 0 {
      RightTimesAdvance(p, n, k - 1);
    }
  }

  /** Moving right as many times as the tape has cells returns to the start. */
  lemma {:induction false} RightTapeLengthTimes(p: nat, n: nat)
    requires p < n
    ensures RightTimes(p, n, n) == p
  {
    RightTimesAdvance(p, n, n);
  }
}
