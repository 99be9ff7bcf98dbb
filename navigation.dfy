/**
 * Keyboard navigation over the suggestion list (index.ts, setupKeyboardNavigation).
 * The handler moves the highlight with JavaScript's `%`, which truncates toward
 * zero, so the remainder is written out here rather than borrowed from Dafny's
 * Euclidean `%`.
 */
module Navigation {

  /**
   * JavaScript's `a % n` for a positive divisor: the remainder takes the sign of
   * the dividend and is smaller than `n` in magnitude. The `-0` JavaScript gives
   * for `-1 % 1` is the same array index as `0`, so it is `0` here.
   */
  function JsRem(a: int, n: int): (r: int)
    requires n > 0
    ensures -n < r < n
    ensures a >= 0 ==> r >= 0
    ensures a <= 0 ==> r <= 0
    ensures a == n * JsQuot(a, n) + r
  {
    if a >= 0 then a % n else -((-a) % n)
  }

  /** The quotient JavaScript's remainder belongs to: `a / n` truncated toward zero. */
  function JsQuot(a: int, n: int): int
    requires n > 0
  {
    if a >= 0 then a / n else -((-a) / n)
  }

  /**
   * On every dividend the keydown handler can form (highlight in [-1, count)),
   * JavaScript's remainder and Dafny's Euclidean one agree.
   */
  lemma JsRemAgreesOnHandlerOperands(active: int, count: nat)
    requires count > 0 && -1 <= active < count
    ensures JsRem(active + 1, count) == (active + 1) % count
    ensures JsRem(active - 1 + count, count) == (active - 1 + count) % count
  {
  }

  /** The index ArrowDown moves to: one further, wrapping from the last entry to the first. */
  function NextIndex(active: int, count: nat): (r: int)
    requires count > 0 && -1 <= active < count
    ensures 0 <= r < count
    ensures r == if active == count - 1 then 0 else active + 1
  {
    JsRem(active + 1, count)
  }

  /**
   * The index ArrowUp moves to: one back, wrapping from the first entry to the
   * last; from "no highlight" (-1) it lands on the second-to-last entry, or on
   * the only entry when there is just one.
   */
  function PrevIndex(active: int, count: nat): (r: int)
    requires count > 0 && -1 <= active < count
    ensures 0 <= r < count
    ensures 0 < active ==> r == active - 1
    ensures active == 0 ==> r == count - 1
    ensures active == -1 ==> r == if count >= 2 then count - 2 else 0
  {
    JsRem(active - 1 + count, count)
  }

  /** On a highlighted entry, ArrowUp undoes ArrowDown and ArrowDown undoes ArrowUp. */
  lemma UpUndoesDown(active: int, count: nat)
    requires 0 <= active < count
    ensures PrevIndex(NextIndex(active, count), count) == active
    ensures NextIndex(PrevIndex(active, count), count) == active
  {
  }

  /** The highlight after `k` presses of ArrowDown starting from `active`. */
  function DownPresses(active: int, count: nat, k: nat): (r: int)
    requires count > 0 && -1 <= active < count
    ensures -1 <= r < count
    ensures k > 0 ==> 0 <= r
    decreases k
  {
    if k == 0 then active else DownPresses(NextIndex(active, count), count, k - 1)
  }

  /** Below the last entry, each ArrowDown moves exactly one step. */
  lemma {:induction false} DownPressesClimb(active: int, count: nat, k: nat)
    requires 0 <= active && active + k < count
    ensures DownPresses(active, count, k) == active + k
    decreases k
  {
    if k > 0 {
      DownPressesClimb(active + 1, count, k - 1);
    }
  }

  /** Pressing ArrowDown `a` times and then `b` times is pressing it `a + b` times. */
  lemma {:induction false} DownPressesCompose(active: int, count: nat, a: nat, b: nat)
    requires count > 0 && -1 <= active < count
    ensures DownPresses(active, count, a + b)
            == DownPresses(DownPresses(active, count, a), count, b)
    decreases a
  {
    if a > 0 {
      DownPressesCompose(NextIndex(active, count), count, a - 1, b);
    }
  }

  /** From a highlighted entry, `count` presses of ArrowDown come back to it. */
  lemma DownCycle(active: int, count: nat)
    requires 0 <= active < count
    ensures DownPresses(active, count, count) == active
  {
    var toLast := count - 1 - active;
    DownPressesCompose(active, count, toLast, active + 1);
    DownPressesClimb(active, count, toLast);
    DownPressesCompose(count - 1, count, 1, active);
    assert DownPresses(count - 1, count, 1) == 0;
    DownPressesClimb(0, count, active);
  }

  /**
   * From "no highlight", `count` presses of ArrowDown end on the last entry:
   * the index never returns to -1.
   */
  lemma DownFromNone(count: nat)
    requires count > 0
    ensures DownPresses(-1, count, count) == count - 1
  {
    DownPressesCompose(-1, count, 1, count - 1);
    assert DownPresses(-1, count, 1) == 0;
    DownPressesClimb(0, count, count - 1);
  }
}
