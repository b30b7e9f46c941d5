/** The difficulty setting: the number of levels the next pyramid gets, chosen
    from a drop-down menu or stepped by a counter, always between 2 and 6. */
module Difficulty {

  const MIN_DIFFICULTY := 2
  const MAX_DIFFICULTY := 6

  /** The drop-down option that stands for a custom difficulty. */
  const CUSTOM_OPTION := 3

  const SHORT_RANGE := 0x1_0000

  /** A C# cast to short: the value modulo 2^16, in [-2^15, 2^15). */
  function ToShort(x: int): (r: int)
    ensures -0x8000 <= r < 0x8000
    ensures (x - r) % SHORT_RANGE == 0
    ensures -0x8000 <= x < 0x8000 ==> r == x
  {
    var m := (x + 0x8000) % SHORT_RANGE;
    assert x + 0x8000 == (x + 0x8000) / SHORT_RANGE * SHORT_RANGE + m;
    m - 0x8000
  }

  /** Two values that agree modulo 2^16 cast to the same short. */
  lemma ToShortCongruent(x: int, y: int)
    requires (x - y) % SHORT_RANGE == 0
    ensures ToShort(x) == ToShort(y)
  {
    var rx, ry := ToShort(x), ToShort(y);
    var k := (x - y) / SHORT_RANGE;
    assert x - y == k * SHORT_RANGE;
    var kx, ky := (x - rx) / SHORT_RANGE, (y - ry) / SHORT_RANGE;
    assert x - rx == kx * SHORT_RANGE && y - ry == ky * SHORT_RANGE;
    assert rx - ry == (k - kx + ky) * SHORT_RANGE;
  }

  /** The difficulty after drop-down option `optn` is picked: options 0, 1 and
      2 give 2, 4 and 6 levels, the custom option keeps the counter's value.
      Any option up to 2 takes the short cast of 2 * (optn + 1), so a negative
      option leaves the range [2, 6]. */
  function DropDownLevel(d: int, optn: int): (r: int)
    ensures 0 <= optn <= 2 ==> r == 2 * (optn + 1) && r in {2, 4, 6}
    ensures optn > 2 ==> r == d
    ensures optn <= 2 ==> r == ToShort(2 * (optn + 1))
    ensures -0x4000 <= optn < 0 ==> r == 2 * (optn + 1) && r < MIN_DIFFICULTY
    ensures optn >= 0 && MIN_DIFFICULTY <= d <= MAX_DIFFICULTY ==> MIN_DIFFICULTY <= r <= MAX_DIFFICULTY
  {
    if optn <= 2 then ToShort(2 * (optn + 1)) else d
  }

  /** The difficulty after the counter is moved by `oper`. The new value is
      computed in shorts: the step is taken when the short sum lies in [2, 6],
      and the stored value is the short sum of the level and the step cast. */
  function StepDifficulty(d: int, oper: int): (r: int)
    requires -0x8000 <= d < 0x8000
    ensures r == d || r == ToShort(d + oper)
    ensures MIN_DIFFICULTY <= d <= MAX_DIFFICULTY ==> MIN_DIFFICULTY <= r <= MAX_DIFFICULTY
    ensures MIN_DIFFICULTY <= d + oper <= MAX_DIFFICULTY ==> r == d + oper
    ensures !(MIN_DIFFICULTY <= ToShort(d + oper) <= MAX_DIFFICULTY) ==> r == d
    ensures MIN_DIFFICULTY <= ToShort(d + oper) <= MAX_DIFFICULTY ==> r == ToShort(d + oper)
  {
    var s := ToShort(d + oper);
    if s < MIN_DIFFICULTY || s > MAX_DIFFICULTY then d
    else
      ToShortCongruent(d + ToShort(oper), d + oper);
      ToShort(d + ToShort(oper))
  }

  /** A step within the range is undone by the opposite step. */
  lemma StepBackAndForth(d: int, oper: int)
    requires MIN_DIFFICULTY <= d <= MAX_DIFFICULTY && MIN_DIFFICULTY <= d + oper <= MAX_DIFFICULTY
    ensures StepDifficulty(StepDifficulty(d, oper), -oper) == d
  {
  }
}
